/** `tail_log`: the last lines of a log file, on the file's content as text. */
module LogTail {
  import opened Basics
  import opened LineEnds

  function StripCr(s: string): string {
    if s != [] && s[|s| - 1] == '\r' then s[..|s| - 1] else s
  }

  /** Drops a final "\n" or "\r\n"; a final "\r" alone stays. */
  function StripEol(s: string): string {
    if s != [] && s[|s| - 1] == '\n' then StripCr(s[..|s| - 1]) else s
  }

  /** Rust's `str::lines`. */
  function Lines(s: string): seq<string>
    decreases |s|
  {
    if s == [] then [] else [StripEol(s[..LineEnd(s, '\n')])] + Lines(s[LineEnd(s, '\n')..])
  }

  function Join(ls: seq<string>): string {
    if ls == [] then [] else if |ls| == 1 then ls[0] else ls[0] + "\n" + Join(ls[1..])
  }

  function Last<T>(ls: seq<T>, n: nat): seq<T> { ls[Monus(|ls|, n)..] }

  function Tail(content: string, n: nat): string { Join(Last(Lines(content), n)) }

  // ---------------------------------------------------------------- a tail is a piece of the file

  function FinalEol(s: string): string { if s != [] && s[|s| - 1] == '\n' then "\n" else "" }

  lemma StripEolBack(s: string)
    requires '\r' !in s
    ensures StripEol(s) + FinalEol(s) == s
  {}

  lemma EolsOfParts(s: string, n: nat)
    requires 0 < n < |s| && s[n - 1] == '\n'
    ensures FinalEol(s[..n]) == "\n" && FinalEol(s[n..]) == FinalEol(s)
  {
    assert s[..n][n - 1] == s[n - 1];
    assert s[n..][|s| - n - 1] == s[|s| - 1];
  }

  lemma Reassociate(line: string, joined: string, eol: string)
    ensures line + "\n" + joined + eol == (line + "\n") + (joined + eol)
  {}

  /** Without carriage returns no character is lost but the final newline. */
  lemma {:induction false} LinesJoinBack(s: string)
    requires '\r' !in s
    ensures Join(Lines(s)) + FinalEol(s) == s
    ensures s != [] ==> Lines(s) != []
    decreases |s|
  {
    hide Lines, LineEnd, StripEol, FinalEol, Join;
    if s == [] {
      NoLines();
    } else {
      var n := LineEnd(s, '\n');
      var first, rest := s[..n], s[n..];
      LinesCons(s);
      StripEolBack(first);
      LinesJoinBack(rest);
      if n == |s| {
        assert first == s && rest == [];
        NoLines();
        assert Lines(s) == [StripEol(s)];
        JoinOne(StripEol(s));
      } else {
        LineEndShape(s, '\n');
        EolsOfParts(s, n);
        JoinCons(StripEol(first), Lines(rest));
        Reassociate(StripEol(first), Join(Lines(rest)), FinalEol(rest));
      }
    }
  }

  lemma NoLines()
    ensures Lines([]) == [] && Join([]) == [] && FinalEol([]) == []
  {}

  lemma LinesCons(s: string)
    requires s != []
    ensures Lines(s) == [StripEol(s[..LineEnd(s, '\n')])] + Lines(s[LineEnd(s, '\n')..])
  {}

  lemma JoinOne(l: string)
    ensures Join([l]) == l
  {}

  lemma JoinCons(l: string, ls: seq<string>)
    requires ls != []
    ensures Join([l] + ls) == l + "\n" + Join(ls)
  {
    assert ([l] + ls)[1..] == ls;
  }

  lemma {:induction false} JoinDrop(ls: seq<string>, k: nat)
    requires k < |ls|
    ensures exists i :: 0 <= i <= |Join(ls)| && Join(ls)[i..] == Join(ls[k..])
  {
    if k == 0 {
      assert Join(ls)[0..] == Join(ls[k..]);
    } else {
      JoinDrop(ls[1..], k - 1);
      var i :| 0 <= i <= |Join(ls[1..])| && Join(ls[1..])[i..] == Join(ls[1..][k - 1..]);
      assert ls[1..][k - 1..] == ls[k..];
      assert Join(ls)[|ls[0]| + 1 + i..] == Join(ls[1..])[i..];
    }
  }

  /** A tail of at least one line, with the file's final newline put back, is a suffix of the file. */
  lemma TailIsASuffix(c: string, n: nat)
    requires '\r' !in c && n >= 1
    ensures exists i :: 0 <= i <= |c| && c[i..] == Tail(c, n) + FinalEol(c)
  {
    hide Lines, Join, FinalEol;
    var all := Lines(c);
    LinesJoinBack(c);
    if all == [] {
      assert Last(all, n) == all;
      assert c[0..] == Tail(c, n) + FinalEol(c);
    } else {
      JoinDrop(all, Monus(|all|, n));
      var i :| 0 <= i <= |Join(all)| && Join(all)[i..] == Join(all[Monus(|all|, n)..]);
      assert (Join(all) + FinalEol(c))[i..] == Join(all)[i..] + FinalEol(c);
    }
  }

  // ---------------------------------------------------------------- either line ending

  predicate EndsInCr(s: string) { s != [] && s[|s| - 1] == '\r' }

  function Eol(crlf: bool): string { if crlf then "\r\n" else "\n" }

  /** The content of a log to which `ls` were written, each with a line ending of its own kind. */
  function Written(ls: seq<string>, crlf: seq<bool>): string
    requires |crlf| == |ls|
  {
    if ls == [] then [] else ls[0] + Eol(crlf[0]) + Written(ls[1..], crlf[1..])
  }

  lemma WrittenLine(l: string, crlf: bool, rest: string)
    requires '\n' !in l && !EndsInCr(l)
    ensures Lines(l + Eol(crlf) + rest) == [l] + Lines(rest)
  {
    var line := if crlf then l + "\r" else l;
    var s, n := l + Eol(crlf) + rest, |line| + 1;
    assert s == line + "\n" + rest;
    LineEndOf(line, rest);
    assert s[..n] == line + "\n" && s[n..] == rest;
    assert s[..n][..n - 1] == line;
  }

  /** What was written line by line, with "\n" or "\r\n", is read back line by line. */
  lemma {:induction false} WrittenLinesAreRead(ls: seq<string>, crlf: seq<bool>)
    requires |crlf| == |ls|
    requires forall i :: 0 <= i < |ls| ==> '\n' !in ls[i] && !EndsInCr(ls[i])
    ensures Lines(Written(ls, crlf)) == ls
  {
    if ls != [] {
      assert forall i :: 0 <= i < |ls[1..]| ==> ls[1..][i] == ls[i + 1];
      WrittenLinesAreRead(ls[1..], crlf[1..]);
      WrittenLine(ls[0], crlf[0], Written(ls[1..], crlf[1..]));
      assert ls == [ls[0]] + ls[1..];
    }
  }

  /** So a tail of such a log is the last `min(n, L)` lines that were written, joined by newlines. */
  lemma TailOfWritten(ls: seq<string>, crlf: seq<bool>, n: nat)
    requires |crlf| == |ls|
    requires forall i :: 0 <= i < |ls| ==> '\n' !in ls[i] && !EndsInCr(ls[i])
    ensures Tail(Written(ls, crlf), n) == Join(ls[|ls| - Min(n, |ls|)..])
  {
    hide Lines, Join;
    WrittenLinesAreRead(ls, crlf);
  }

  // ---------------------------------------------------------------- reading a tail back

  predicate NoNewlines(ls: seq<string>) { forall i :: 0 <= i < |ls| ==> '\n' !in ls[i] }

  lemma {:induction false} LinesHaveNoNewlines(s: string)
    ensures NoNewlines(Lines(s))
    decreases |s|
  {
    if s != [] {
      var first := s[..LineEnd(s, '\n')];
      LineEndShape(s, '\n');
      LinesHaveNoNewlines(s[LineEnd(s, '\n')..]);
      assert first[..|first| - 1] == s[..LineEnd(s, '\n') - 1];
      if first[|first| - 1] != '\n' {
        assert first == s[..LineEnd(s, '\n') - 1] + [first[|first| - 1]];
      }
    }
  }

  lemma {:induction false} LineEndOf(line: string, rest: string)
    requires '\n' !in line
    ensures LineEnd(line, '\n') == |line|
    ensures LineEnd(line + "\n" + rest, '\n') == |line| + 1
  {
    if line == [] {
      assert line + "\n" + rest == "\n" + rest;
    } else {
      LineEndOf(line[1..], rest);
      assert (line + "\n" + rest)[1..] == line[1..] + "\n" + rest;
    }
  }

  /** What `Lines` makes of joined lines: inner carriage returns and a final empty line are lost. */
  function Reread(ls: seq<string>): seq<string> {
    if ls == [] then []
    else if |ls| == 1 then if ls[0] == [] then [] else ls
    else [StripCr(ls[0])] + Reread(ls[1..])
  }

  lemma {:induction false} LinesOfJoin(ls: seq<string>)
    requires NoNewlines(ls)
    ensures Lines(Join(ls)) == Reread(ls)
  {
    if |ls| == 1 {
      LineEndOf(ls[0], []);
      assert ls[0][..|ls[0]|] == ls[0];
    } else if |ls| > 1 {
      var s := Join(ls);
      LineEndOf(ls[0], Join(ls[1..]));
      assert s[..|ls[0]| + 1] == ls[0] + "\n";
      assert s[|ls[0]| + 1..] == Join(ls[1..]);
      LinesOfJoin(ls[1..]);
    }
  }

  /** The lines survive being joined and split again. */
  predicate Faithful(ls: seq<string>) {
    ls == [] ||
    (ls[|ls| - 1] != [] && forall i :: 0 <= i < |ls| - 1 ==> !EndsInCr(ls[i]))
  }

  lemma FaithfulCons(ls: seq<string>)
    requires |ls| > 1
    ensures Faithful(ls) <==> !EndsInCr(ls[0]) && Faithful(ls[1..])
  {
    var rest := ls[1..];
    if Faithful(ls) {
      assert forall i :: 0 <= i < |rest| ==> rest[i] == ls[i + 1];
    }
    if !EndsInCr(ls[0]) && Faithful(rest) {
      assert forall i :: 0 < i < |ls| ==> ls[i] == rest[i - 1];
    }
  }

  lemma {:induction false} RereadIsFaithful(ls: seq<string>)
    ensures Reread(ls) == ls <==> Faithful(ls)
    ensures |Reread(ls)| <= |ls|
  {
    if |ls| > 1 {
      RereadIsFaithful(ls[1..]);
      FaithfulCons(ls);
      assert ls == [ls[0]] + ls[1..];
      assert Reread(ls)[1..] == Reread(ls[1..]);
    }
  }

  /**
   Splitting a tail gives back exactly the last `min(n, L)` lines of the content's `L` lines if and
   only if the last of them is not empty and no other one ends in a carriage return.
   */
  lemma TailRoundTrip(c: string, n: nat)
    ensures Lines(Tail(c, n)) == Last(Lines(c), n) <==> Faithful(Last(Lines(c), n))
    ensures |Last(Lines(c), n)| == Min(n, |Lines(c)|)
  {
    var ls := Last(Lines(c), n);
    LinesHaveNoNewlines(c);
    LinesOfJoin(ls);
    RereadIsFaithful(ls);
  }

  lemma {:induction false} JoinShrinks(ls: seq<string>)
    ensures |Join(Reread(ls))| <= |Join(ls)|
    ensures |Join(Reread(ls))| == |Join(ls)| <==> Faithful(ls) || ls == [""]
  {
    if |ls| > 1 {
      var rest := ls[1..];
      JoinShrinks(rest);
      FaithfulCons(ls);
      if Reread(rest) == [] {
        assert Reread(ls) == [StripCr(ls[0])];
        assert |Join(ls)| == |ls[0]| + 1 + |Join(rest)|;
        RereadEmpty(rest);
      } else {
        assert Reread(ls)[1..] == Reread(rest);
      }
    }
  }

  lemma RereadEmpty(ls: seq<string>)
    requires ls != [] && Reread(ls) == []
    ensures ls == [""]
  {}

  lemma {:induction false} TailOfFaithful(c: string, n: nat, m: nat)
    requires Faithful(Last(Lines(c), n)) || Last(Lines(c), n) == [""]
    ensures Tail(Tail(c, n), m) == Tail(c, Min(n, m))
  {
    var all, ls := Lines(c), Last(Lines(c), n);
    assert Last(ls, m) == Last(all, Min(n, m));
    if Faithful(ls) {
      TailRoundTrip(c, n);
    }
  }

  /**
   Tails compose, `tail(tail(c, n), m) = tail(c, min(n, m))` for every `m`, exactly when the lines
   survive rereading; a tail that is one empty line composes too.
   */
  lemma TailsCompose(c: string, n: nat)
    ensures (forall m: nat :: Tail(Tail(c, n), m) == Tail(c, Min(n, m))) <==>
            Faithful(Last(Lines(c), n)) || Last(Lines(c), n) == [""]
  {
    var ls := Last(Lines(c), n);
    if Faithful(ls) || ls == [""] {
      forall m: nat
        ensures Tail(Tail(c, n), m) == Tail(c, Min(n, m))
      {
        TailOfFaithful(c, n, m);
      }
    } else {
      LinesHaveNoNewlines(c);
      LinesOfJoin(ls);
      RereadIsFaithful(ls);
      JoinShrinks(ls);
      assert Last(Reread(ls), n) == Reread(ls);
      assert Tail(Tail(c, n), n) != Tail(c, Min(n, n));
    }
  }

  /** Text without carriage returns whose last line is not empty is always reread faithfully. */
  lemma {:induction false} PlainTextIsFaithful(c: string, n: nat)
    requires '\r' !in c
    requires Lines(c) != [] ==> Lines(c)[|Lines(c)| - 1] != []
    ensures Faithful(Last(Lines(c), n))
  {
    LinesComeFromText(c);
  }

  lemma {:induction false} LinesComeFromText(s: string)
    requires '\r' !in s
    ensures forall i :: 0 <= i < |Lines(s)| ==> '\r' !in Lines(s)[i]
    decreases |s|
  {
    if s != [] {
      LinesComeFromText(s[LineEnd(s, '\n')..]);
    }
  }
}
