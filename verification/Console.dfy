/** lib/console/console.c: splitting a command line in place, in two passes of
    the same code. */
module Consoles {

  const NUL: char := '\0'

  /** One word: from `start` up to and not including `end`. */
  datatype Word = Word(start: nat, end: nat)

  /** A maximal run without a space. */
  ghost predicate IsRun(line: string, w: Word) {
    && w.start < w.end <= |line|
    && (forall j :: w.start <= j < w.end ==> line[j] != ' ')
    && (w.start > 0 ==> line[w.start - 1] == ' ')
    && (w.end < |line| ==> line[w.end] == ' ')
  }

  ghost predicate InOrder(ws: seq<Word>) {
    forall a, b :: 0 <= a < b < |ws| ==> ws[a].end < ws[b].start
  }

  ghost predicate AllRuns(line: string, ws: seq<Word>) {
    forall a :: 0 <= a < |ws| ==> IsRun(line, ws[a])
  }

  ghost predicate Within(ws: seq<Word>, j: nat) {
    exists a :: 0 <= a < |ws| && ws[a].start <= j < ws[a].end
  }

  ghost predicate Covered(line: string, ws: seq<Word>) {
    forall j :: 0 <= j < |line| && line[j] != ' ' ==> Within(ws, j)
  }

  /** The maximal space-free runs of a line, all of them, from left to right. */
  ghost predicate IsSplit(line: string, ws: seq<Word>) {
    AllRuns(line, ws) && InOrder(ws) && Covered(line, ws)
  }

  // ----- every line has exactly one split

  lemma SplitSpace(line: string, ws: seq<Word>)
    requires IsSplit(line, ws)
    ensures IsSplit(line + [' '], ws)
  {
    var next := line + [' '];
    forall a | 0 <= a < |ws|
      ensures IsRun(next, ws[a])
    {
      assert IsRun(line, ws[a]);
    }
  }

  /** A character after a space starts a word of its own. */
  lemma SplitFresh(line: string, c: char, ws: seq<Word>)
    requires IsSplit(line, ws) && c != ' '
    requires line == [] || line[|line| - 1] == ' '
    ensures IsSplit(line + [c], ws + [Word(|line|, |line| + 1)])
  {
    var next, grown := line + [c], ws + [Word(|line|, |line| + 1)];
    forall a | 0 <= a < |ws|
      ensures IsRun(next, ws[a]) && ws[a].end < |line|
    {
      assert IsRun(line, ws[a]);
    }
    assert grown[|ws|] == Word(|line|, |line| + 1);
    forall j | 0 <= j < |next| && next[j] != ' '
      ensures Within(grown, j)
    {
      if j < |line| {
        assert Within(ws, j);
        var a :| 0 <= a < |ws| && ws[a].start <= j < ws[a].end;
        assert grown[a] == ws[a];
      }
    }
  }

  /** The word that reaches the end of the line is the last. */
  lemma LastWord(line: string, ws: seq<Word>) returns (m: nat)
    requires IsSplit(line, ws) && line != [] && line[|line| - 1] != ' '
    ensures |ws| == m + 1 && ws[m].end == |line| && IsRun(line, ws[m])
  {
    assert Within(ws, |line| - 1);
    m :| 0 <= m < |ws| && ws[m].start <= |line| - 1 < ws[m].end;
    assert IsRun(line, ws[m]);
    assert m + 1 < |ws| ==> IsRun(line, ws[m + 1]);
  }

  lemma LongerCovers(line: string, c: char, ws: seq<Word>, m: nat, grown: seq<Word>)
    requires Covered(line, ws) && m < |ws| && ws[m].start < ws[m].end == |line|
    requires grown == ws[m := Word(ws[m].start, |line| + 1)]
    ensures Covered(line + [c], grown)
  {
    forall j | 0 <= j < |line| + 1 && (line + [c])[j] != ' '
      ensures Within(grown, j)
    {
      if j < |line| {
        assert Within(ws, j);
        var a :| 0 <= a < |ws| && ws[a].start <= j < ws[a].end;
        assert grown[a].start <= j < grown[a].end;
      } else {
        assert grown[m].start <= j < grown[m].end;
      }
    }
  }

  /** Any other character lengthens the last word. */
  lemma SplitLonger(line: string, c: char, ws: seq<Word>) returns (grown: seq<Word>)
    requires IsSplit(line, ws) && c != ' '
    requires line != [] && line[|line| - 1] != ' '
    ensures IsSplit(line + [c], grown)
  {
    var next := line + [c];
    var m := LastWord(line, ws);
    grown := ws[m := Word(ws[m].start, |next|)];
    LongerCovers(line, c, ws, m, grown);
    forall a | 0 <= a < |grown|
      ensures IsRun(next, grown[a])
    {
      if a < m {
        assert IsRun(line, ws[a]);
      } else {
        assert IsRun(next, grown[m]);
      }
    }
  }

  lemma {:induction false} SplitExists(line: string) returns (ws: seq<Word>)
    ensures IsSplit(line, ws)
  {
    if line == [] {
      ws := [];
      return;
    }
    var front, c := line[..|line| - 1], line[|line| - 1];
    assert line == front + [c];
    ws := SplitExists(front);
    if c == ' ' {
      SplitSpace(front, ws);
    } else if front == [] || front[|front| - 1] == ' ' {
      SplitFresh(front, c, ws);
      ws := ws + [Word(|front|, |front| + 1)];
    } else {
      ws := SplitLonger(front, c, ws);
    }
  }

  /** Two runs that share a position are the same. */
  lemma RunsMeet(line: string, v: Word, w: Word)
    requires IsRun(line, v) && IsRun(line, w) && v.start <= w.start < v.end
    ensures v == w
  {
    assert w.start > 0 ==> line[w.start - 1] == ' ';
    assert v.end < |line| ==> line[v.end] == ' ';
    assert w.end < |line| ==> line[w.end] == ' ';
  }

  /** A word is in the split exactly when it is a maximal run. */
  lemma SplitMembers(line: string, ws: seq<Word>, w: Word)
    requires IsSplit(line, ws)
    ensures w in ws <==> IsRun(line, w)
  {
    if IsRun(line, w) {
      assert line[w.start] != ' ';
      assert Within(ws, w.start);
      var a :| 0 <= a < |ws| && ws[a].start <= w.start < ws[a].end;
      RunsMeet(line, ws[a], w);
    }
  }

  lemma {:induction false} SplitAgrees(line: string, v: seq<Word>, w: seq<Word>, k: nat)
    requires IsSplit(line, v) && IsSplit(line, w) && k < |v|
    ensures k < |w| && v[k] == w[k]
  {
    forall a: nat | a < k
      ensures a < |w| && v[a] == w[a]
    {
      SplitAgrees(line, v, w, a);
    }
    SplitMembers(line, v, v[k]);
    SplitMembers(line, w, v[k]);
    var m :| 0 <= m < |w| && w[m] == v[k];
    assert IsRun(line, v[k]);
    assert m >= k;
    SplitMembers(line, w, w[k]);
    SplitMembers(line, v, w[k]);
    var n :| 0 <= n < |v| && v[n] == w[k];
    assert n >= k;
    assert IsRun(line, w[k]);
  }

  lemma SplitUnique(line: string, v: seq<Word>, w: seq<Word>)
    requires IsSplit(line, v) && IsSplit(line, w)
    ensures v == w
  {
    if |v| > |w| {
      SplitAgrees(line, v, w, |w|);
      assert false;
    }
    if |w| > |v| {
      SplitAgrees(line, w, v, |v|);
      assert false;
    }
    forall k | 0 <= k < |v|
      ensures v[k] == w[k]
    {
      SplitAgrees(line, v, w, k);
    }
  }

  // ----- one word at a time

  /** `n` words lie before position `p`, the others do not. */
  ghost predicate Passed(line: string, ws: seq<Word>, n: nat, p: nat) {
    && n <= |ws|
    && (forall a :: 0 <= a < n ==> ws[a].end <= p)
    && (forall a :: n <= a < |ws| ==> ws[a].start >= p)
  }

  /** The first character behind the spaces starts the next word. */
  lemma NextWord(line: string, ws: seq<Word>, n: nat, p: nat, q: nat)
    requires IsSplit(line, ws) && Passed(line, ws, n, p) && p <= q < |line|
    requires line[q] != ' ' && forall j :: p <= j < q ==> line[j] == ' '
    ensures n < |ws| && ws[n].start == q
  {
    assert Within(ws, q);
    var a :| 0 <= a < |ws| && ws[a].start <= q < ws[a].end;
    assert IsRun(line, ws[a]);
    assert a >= n && IsRun(line, ws[n]);
    assert line[ws[a].start] != ' ' && line[ws[n].start] != ' ';
  }

  lemma WordStarts(line: string, ws: seq<Word>, n: nat)
    requires IsSplit(line, ws) && n < |ws|
    ensures ws[n].start < |line| && line[ws[n].start] != ' '
  {
    assert IsRun(line, ws[n]);
  }

  /** Only spaces are left, hence no word. */
  lemma NoWord(line: string, ws: seq<Word>, n: nat, p: nat)
    requires IsSplit(line, ws) && Passed(line, ws, n, p)
    requires forall j :: p <= j < |line| ==> line[j] == ' '
    ensures n == |ws|
  {
    if n < |ws| {
      WordStarts(line, ws, n);
      assert false;
    }
  }

  /** The end of the word that starts at `q` is the first space or the end of the line. */
  lemma WordEnd(line: string, ws: seq<Word>, n: nat, q: nat, e: nat)
    requires IsSplit(line, ws) && n < |ws| && ws[n].start == q && q < e <= |line|
    requires (forall j :: q <= j < e ==> line[j] != ' ') && (e < |line| ==> line[e] == ' ')
    ensures ws[n].end == e
  {
    assert IsRun(line, ws[n]);
    assert ws[n].end < |line| ==> line[ws[n].end] == ' ';
  }

  lemma StepPast(line: string, ws: seq<Word>, n: nat, p: nat, e: nat)
    requires IsSplit(line, ws) && Passed(line, ws, n, p) && n < |ws| && ws[n].end == e
    ensures p <= e && Passed(line, ws, n + 1, e + 1)
    ensures e == |line| ==> n + 1 == |ws|
  {
    assert IsRun(line, ws[n]);
    if n + 1 < |ws| {
      assert IsRun(line, ws[n + 1]);
    }
  }

  /** Passing the spaces and the word behind them passes exactly one word. */
  lemma OneWord(line: string, ws: seq<Word>, n: nat, p: nat, q: nat, e: nat)
    requires IsSplit(line, ws) && Passed(line, ws, n, p) && p <= q < e <= |line|
    requires forall j :: p <= j < q ==> line[j] == ' '
    requires (forall j :: q <= j < e ==> line[j] != ' ') && (e < |line| ==> line[e] == ' ')
    ensures n < |ws| && ws[n] == Word(q, e) && Passed(line, ws, n + 1, e + 1)
    ensures e + 1 >= |line| ==> n + 1 == |ws|
  {
    NextWord(line, ws, n, p, q);
    WordEnd(line, ws, n, q, e);
    StepPast(line, ws, n, p, e);
    if e + 1 == |line| {
      NoWord(line, ws, n + 1, e + 1);
    }
  }

  // ----- the code

  /** From position `p` on the buffer still holds the line and its terminating NUL. */
  ghost predicate Holds(buf: array<char>, line: string, p: nat)
    reads buf
  {
    && p <= |line| < buf.Length && NUL !in line && buf[|line|] == NUL
    && forall j :: p <= j < |line| ==> buf[j] == line[j]
  }

  method PastSpaces(buf: array<char>, from: nat, ghost line: string) returns (p: nat)
    requires Holds(buf, line, from)
    ensures from <= p <= |line| && (p < |line| ==> line[p] != ' ')
    ensures forall j :: from <= j < p ==> line[j] == ' '
  {
    p := from;
    while buf[p] == ' '
      invariant from <= p <= |line|
      invariant forall j :: from <= j < p ==> line[j] == ' '
      decreases |line| - p
    {
      p := p + 1;
    }
  }

  method PastWord(buf: array<char>, from: nat, ghost line: string) returns (p: nat)
    requires Holds(buf, line, from)
    ensures from <= p <= |line| && (p < |line| ==> line[p] == ' ')
    ensures forall j :: from <= j < p ==> line[j] != ' '
  {
    p := from;
    while buf[p] != NUL && buf[p] != ' '
      invariant from <= p <= |line|
      invariant forall j :: from <= j < p ==> line[j] != ' '
      decreases |line| - p
    {
      p := p + 1;
    }
  }

  /** What C reads from position `i` on. */
  ghost predicate Reads(buf: array<char>, i: nat, word: string)
    reads buf
  {
    i + |word| < buf.Length && buf[i..i + |word|] == word && buf[i + |word|] == NUL
  }

  /** The first `n` arguments point at the first `n` words, each with a NUL behind it. */
  ghost predicate Filled(buf: array<char>, argv: array<nat>, line: string, ws: seq<Word>, n: nat)
    reads buf, argv
  {
    n <= |ws| && n <= argv.Length
    && forall k :: 0 <= k < n ==>
        && argv[k] == ws[k].start <= ws[k].end <= |line|
        && Reads(buf, argv[k], line[ws[k].start..ws[k].end])
  }

  /** No character of a word has been overwritten. */
  ghost predicate WordsKept(buf: array<char>, line: string)
    reads buf
  {
    |line| < buf.Length && forall j :: 0 <= j < |line| && line[j] != ' ' ==> buf[j] == line[j]
  }

  /** Each of the first `n` words is stored and ended. */
  ghost predicate Stored(buf: array<char>, argv: array<nat>, ws: seq<Word>, n: nat)
    reads buf, argv
  {
    && n <= |ws| <= argv.Length
    && forall k :: 0 <= k < n ==> argv[k] == ws[k].start && ws[k].end < buf.Length && buf[ws[k].end] == NUL
  }

  lemma StoredReads(buf: array<char>, argv: array<nat>, line: string, ws: seq<Word>, n: nat)
    requires IsSplit(line, ws) && WordsKept(buf, line) && Stored(buf, argv, ws, n)
    ensures Filled(buf, argv, line, ws, n)
  {
    forall k | 0 <= k < n
      ensures argv[k] == ws[k].start <= ws[k].end <= |line|
      ensures Reads(buf, argv[k], line[ws[k].start..ws[k].end])
    {
      assert IsRun(line, ws[k]);
      assert buf[ws[k].start..ws[k].end] == line[ws[k].start..ws[k].end];
    }
  }

  /** One word stored: its start, and a NUL in place of the space behind it. */
  method StoreWord(buf: array<char>, argv: array<nat>, n: nat, arg: nat, e: nat, ghost line: string,
    ghost ws: seq<Word>)
    requires Holds(buf, line, e) && WordsKept(buf, line) && Stored(buf, argv, ws, n)
    requires n < |ws| && ws[n] == Word(arg, e) && (e < |line| ==> line[e] == ' ')
    modifies buf, argv
    ensures WordsKept(buf, line) && Stored(buf, argv, ws, n + 1) && (e < |line| ==> Holds(buf, line, e + 1))
    ensures buf[|line|..] == old(buf[|line|..]) && argv[|ws|..] == old(argv[|ws|..])
  {
    argv[n] := arg;
    if buf[e] != NUL {
      buf[e] := NUL;
    }
  }

  /** console_parse_command: without `argv` it counts, with `argv` it also
      stores each word's start and ends each word with a NUL. */
  method Parse(buf: array<char>, argv: array?<nat>, ghost line: string, ghost ws: seq<Word>) returns (argc: nat)
    requires Holds(buf, line, 0) && IsSplit(line, ws)
    requires argv != null ==> argv.Length >= |ws|
    modifies buf, argv
    ensures argc == |ws|
    ensures argv == null ==> buf[..] == old(buf[..])
    ensures argv != null ==> Filled(buf, argv, line, ws, argc)
    ensures argv != null ==> argv[|ws|..] == old(argv[|ws|..])
    ensures buf[|line|..] == old(buf[|line|..])
  {
    argc := 0;
    var p := 0;
    if buf[p] == NUL {
      NoWord(line, ws, 0, 0);
    }
    while buf[p] != NUL
      invariant p <= |line| && Passed(line, ws, argc, p) && Holds(buf, line, p)
      invariant p == |line| ==> argc == |ws|
      invariant argv == null ==> buf[..] == old(buf[..])
      invariant argv != null ==> Stored(buf, argv, ws, argc)
      invariant WordsKept(buf, line)
      invariant argv != null ==> argv[|ws|..] == old(argv[|ws|..])
      invariant buf[|line|..] == old(buf[|line|..])
      decreases |line| - p
    {
      ghost var from := p;
      p := PastSpaces(buf, p, line);
      if buf[p] == NUL {
        NoWord(line, ws, argc, from);
        break;
      }
      var arg := p;
      p := PastWord(buf, p, line);
      OneWord(line, ws, argc, from, arg, p);
      var last := buf[p] == NUL;
      if argv != null {
        StoreWord(buf, argv, argc, arg, p, line, ws);
      }
      argc := argc + 1;
      if last {
        break;
      }
      p := p + 1;
    }
    if argv != null {
      StoredReads(buf, argv, line, ws, argc);
    }
  }

  /** The use in console_main: count, make room for exactly that many
      arguments, then fill. */
  method Arguments(buf: array<char>, ghost line: string) returns (argc: nat, argv: array<nat>, ghost ws: seq<Word>)
    requires Holds(buf, line, 0)
    modifies buf
    ensures IsSplit(line, ws) && fresh(argv)
    ensures argc == argv.Length == |ws|
    ensures Filled(buf, argv, line, ws, argc)
  {
    ws := SplitExists(line);
    argc := Parse(buf, null, line, ws);
    argv := new nat[argc];
    if argc == 0 {
      return;
    }
    argc := Parse(buf, argv, line, ws);
  }
}
