/**
 The user program `grep`: a line splitter and matcher over a 1024-byte buffer that
 is refilled as it goes, proved to report what a search of the whole file's lines
 would report.
 */
module Grep {
  import opened Common
  import opened FileSystem
  import opened Descriptors

  const BUFSIZE := 1024

  // ------------------------------------------------- searching the file as a whole

  /** Index of the first newline, the length if there is none. */
  function LineEnd(c: seq<byte>): (n: nat)
    ensures n <= |c|
    ensures forall i :: 0 <= i < n ==> c[i] != LF
    ensures n < |c| ==> c[n] == LF
  {
    if c == [] || c[0] == LF then 0 else 1 + LineEnd(c[1..])
  }

  lemma LineEndIs(c: seq<byte>, n: nat)
    requires n <= |c| && (forall i :: 0 <= i < n ==> c[i] != LF) && (n < |c| ==> c[n] == LF)
    ensures LineEnd(c) == n
  {
    var m := LineEnd(c);
    assert forall i :: 0 <= i < m ==> c[i] != LF;
  }

  /** The lines of a text. */
  function Lines(c: seq<byte>): seq<seq<byte>>
    decreases |c|
  {
    if c == [] then []
    else if LineEnd(c) < |c| then [c[..LineEnd(c)]] + Lines(c[LineEnd(c) + 1..])
    else [c]
  }

  predicate OccursAt(line: seq<byte>, s: seq<byte>, i: nat) {
    i + |s| <= |line| && line[i..i + |s|] == s
  }

  predicate Contains(line: seq<byte>, s: seq<byte>) {
    exists i :: 0 <= i <= |line| && OccursAt(line, s, i)
  }

  /** The program compares the pattern's first byte as a signed character, so a
      pattern that starts with a byte above 127 matches nothing, nor does the empty
      one. */
  predicate Searchable(s: seq<byte>) { s != [] && s[0] < 128 }

  predicate Hit(line: seq<byte>, s: seq<byte>) { Searchable(s) && Contains(line, s) }

  type Test = seq<byte> -> bool

  /** The test that a search is meant to make. */
  function ContainsOf(s: seq<byte>): Test { line => Contains(line, s) }

  /** The test that the program makes. */
  function HitOf(s: seq<byte>): Test { line => Hit(line, s) }

  function OneHit(line: seq<byte>, test: Test): seq<seq<byte>> {
    if test(line) then [line] else []
  }

  /** The lines that pass a test, in order. */
  function Hits(lines: seq<seq<byte>>, test: Test): seq<seq<byte>> {
    if lines == [] then [] else OneHit(lines[0], test) + Hits(lines[1..], test)
  }

  /** A text without a newline. */
  predicate NoLineEnd(s: seq<byte>) { forall i :: 0 <= i < |s| ==> s[i] != LF }

  /** Every line with its newline. */
  function Unlined(lines: seq<seq<byte>>): seq<byte> {
    if lines == [] then [] else lines[0] + ([LF] + Unlined(lines[1..]))
  }

  lemma {:induction false} LinesHoldNoNewline(c: seq<byte>)
    ensures forall i :: 0 <= i < |Lines(c)| ==> NoLineEnd(Lines(c)[i])
    decreases |c|
  {
    if c != [] {
      LinesUnfold(c);
      LinesHoldNoNewline(AfterLine(c));
    }
  }

  /** A text that ends with its last newline. */
  function Ended(c: seq<byte>): seq<byte> {
    if c == [] || c[|c| - 1] == LF then c else c + [LF]
  }

  lemma EndedStep(line: seq<byte>, more: seq<byte>)
    ensures Ended(line + ([LF] + more)) == line + ([LF] + Ended(more))
  {
    var c := line + ([LF] + more);
    if more == [] {
      assert c[|c| - 1] == LF;
    } else {
      assert c[|c| - 1] == more[|more| - 1];
      assert c + [LF] == line + ([LF] + (more + [LF]));
    }
  }

  /** With their newlines the lines are the text again, which may lack the last one. */
  lemma {:induction false} LinesAreTheText(c: seq<byte>)
    ensures Unlined(Lines(c)) == Ended(c)
    decreases |c|
  {
    if c != [] {
      LinesUnfold(c);
      LinesAreTheText(AfterLine(c));
      UnlinedFirst(c[..LineEnd(c)], Lines(AfterLine(c)));
      EndedFirst(c);
    }
  }

  lemma UnlinedFirst(line: seq<byte>, rest: seq<seq<byte>>)
    ensures Unlined([line] + rest) == line + ([LF] + Unlined(rest))
  {
    assert ([line] + rest)[1..] == rest;
  }

  lemma EndedFirst(c: seq<byte>)
    requires c != []
    ensures Ended(c) == c[..LineEnd(c)] + ([LF] + Ended(AfterLine(c)))
  {
    var n := LineEnd(c);
    if n < |c| {
      SplitAt(c, n);
      EndedStep(c[..n], c[n + 1..]);
    } else {
      assert c[..n] == c && c[|c| - 1] != LF;
    }
  }

  /** The lines that pass are listed once each, in order: `at` says which they are. */
  lemma {:induction false} HitsAreThoseThatPass(lines: seq<seq<byte>>, test: Test) returns (at: seq<nat>)
    ensures |at| == |Hits(lines, test)|
    ensures forall j :: 0 <= j < |at| ==> at[j] < |lines| && Hits(lines, test)[j] == lines[at[j]]
    ensures forall i, j :: 0 <= i < j < |at| ==> at[i] < at[j]
    ensures forall i :: 0 <= i < |lines| ==> (i in at <==> test(lines[i]))
  {
    if lines == [] {
      at := [];
    } else {
      var front, last := lines[..|lines| - 1], lines[|lines| - 1];
      at := HitsAreThoseThatPass(front, test);
      assert lines == front + [last];
      HitsAppend(front, [last], test);
      SingleHit(last, test);
      if test(last) {
        at := at + [|front|];
      }
    }
  }

  // ------------------------------------------------------ what the buffer makes of it

  /** The first piece the buffer can hold: a line, or 1024 bytes of a longer one. */
  function PieceEnd(c: seq<byte>): (n: nat)
    ensures n <= |c| && n <= BUFSIZE
  {
    Min(LineEnd(c), BUFSIZE)
  }

  /** Where the next piece starts. */
  function NextPiece(c: seq<byte>): (n: nat)
    requires c != []
    ensures 0 < n <= |c|
  {
    if LineEnd(c) < BUFSIZE && LineEnd(c) < |c| then LineEnd(c) + 1 else PieceEnd(c)
  }

  /** The lines of a text, those of more than 1024 bytes cut into pieces. */
  function Pieces(c: seq<byte>): seq<seq<byte>>
    decreases |c|
  {
    if c == [] then [] else [c[..PieceEnd(c)]] + Pieces(c[NextPiece(c)..])
  }

  lemma OccursInSlice(line: seq<byte>, lo: nat, hi: nat, s: seq<byte>)
    requires lo <= hi <= |line| && Contains(line[lo..hi], s)
    ensures Contains(line, s)
  {
    var part := line[lo..hi];
    var i :| 0 <= i <= |part| && OccursAt(part, s, i);
    forall k | 0 <= k < |s|
      ensures line[lo + i..lo + i + |s|][k] == s[k]
    {
      assert part[i..i + |s|][k] == s[k];
    }
    assert OccursAt(line, s, lo + i);
  }

  predicate LongLack(lines: seq<seq<byte>>, s: seq<byte>) {
    forall i :: 0 <= i < |lines| && |lines[i]| > 1024 ==> !Contains(lines[i], s)
  }

  /** No line of more than 1024 bytes contains the pattern. */
  predicate LongLinesLack(c: seq<byte>, s: seq<byte>) { LongLack(Lines(c), s) }

  lemma LinesUnfold(c: seq<byte>)
    requires c != []
    ensures Lines(c) == [c[..LineEnd(c)]] + Lines(AfterLine(c))
    ensures Lines(c)[1..] == Lines(AfterLine(c))
  {
    assert LineEnd(c) == |c| ==> c[..LineEnd(c)] == c;
  }

  lemma PiecesUnfold(c: seq<byte>, test: Test)
    requires c != []
    ensures Hits(Pieces(c), test) == OneHit(c[..PieceEnd(c)], test) + Hits(Pieces(c[NextPiece(c)..]), test)
  {
    var rest := Pieces(c[NextPiece(c)..]);
    assert ([c[..PieceEnd(c)]] + rest)[1..] == rest;
  }

  lemma LineEndOfRest(c: seq<byte>, k: nat, n: nat)
    requires k <= n == LineEnd(c)
    ensures LineEnd(c[k..]) == n - k
    ensures c[k..][..n - k] == c[..n][k..n]
    ensures n < |c| ==> c[k..][n - k + 1..] == c[n + 1..]
  {
    LineEndShift(c, k, n);
    RestSlices(c, k, n);
  }

  lemma LineEndShift(c: seq<byte>, k: nat, n: nat)
    requires k <= n == LineEnd(c)
    ensures LineEnd(c[k..]) == n - k
  {
    var rest := c[k..];
    assert forall i :: 0 <= i < |rest| ==> rest[i] == c[k + i];
    LineEndIs(rest, n - k);
  }

  lemma RestSlices(c: seq<byte>, k: nat, n: nat)
    requires k <= n <= |c|
    ensures c[k..][..n - k] == c[..n][k..n]
    ensures n < |c| ==> c[k..][n - k + 1..] == c[n + 1..]
  {
    var rest := c[k..];
    var a, b := rest[..n - k], c[..n][k..n];
    assert forall i :: 0 <= i < n - k ==> a[i] == b[i];
    if n < |c| {
      var x, y := rest[n - k + 1..], c[n + 1..];
      assert forall i :: 0 <= i < |y| ==> x[i] == y[i];
    }
  }

  /** What is left after the first 1024 bytes of a long line. */
  lemma RestOfLongLine(c: seq<byte>)
    requires LineEnd(c) >= BUFSIZE
    ensures var n, rest := LineEnd(c), c[BUFSIZE..];
            && NextPiece(c) == PieceEnd(c) == BUFSIZE
            && LineEnd(rest) == n - BUFSIZE
            && rest[..n - BUFSIZE] == c[..n][BUFSIZE..n]
            && (n < |c| ==> rest[n - BUFSIZE + 1..] == c[n + 1..])
  {
    LineEndOfRest(c, BUFSIZE, LineEnd(c));
  }

  lemma PartLacks(line: seq<byte>, lo: nat, hi: nat, s: seq<byte>)
    requires lo <= hi <= |line| && !Hit(line, s)
    ensures !Hit(line[lo..hi], s)
  {
    if Contains(line[lo..hi], s) {
      OccursInSlice(line, lo, hi, s);
    }
  }

  /** What follows the first line. */
  function AfterLine(c: seq<byte>): seq<byte> {
    if LineEnd(c) < |c| then c[LineEnd(c) + 1..] else []
  }

  /** A line without the pattern yields no hits, however it is cut. */
  lemma {:induction false} LineWithoutHits(c: seq<byte>, s: seq<byte>)
    requires c != [] && !Hit(c[..LineEnd(c)], s)
    ensures Hits(Pieces(c), HitOf(s)) == Hits(Pieces(AfterLine(c)), HitOf(s))
    decreases |c|
  {
    var n := LineEnd(c);
    PiecesUnfold(c, HitOf(s));
    PartLacks(c[..n], 0, PieceEnd(c), s);
    assert c[..n][0..PieceEnd(c)] == c[..PieceEnd(c)];
    if n < BUFSIZE {
      assert c[NextPiece(c)..] == AfterLine(c);
    } else {
      RestOfLongLine(c);
      var rest := c[BUFSIZE..];
      PartLacks(c[..n], BUFSIZE, n, s);
      assert AfterLine(rest) == AfterLine(c);
      if rest != [] {
        LineWithoutHits(rest, s);
      }
    }
  }

  /** A line that fits the buffer is searched whole. */
  lemma ShortLine(c: seq<byte>, s: seq<byte>)
    requires c != [] && LineEnd(c) <= BUFSIZE
    ensures Hits(Pieces(c), HitOf(s))
            == OneHit(c[..LineEnd(c)], HitOf(s)) + Hits(Pieces(AfterLine(c)), HitOf(s))
  {
    var n := LineEnd(c);
    PiecesUnfold(c, HitOf(s));
    assert PieceEnd(c) == n;
    if n == BUFSIZE && n < |c| {
      RestOfLongLine(c);
      var rest := c[BUFSIZE..];
      LineWithoutHits(rest, s);
      assert AfterLine(rest) == AfterLine(c);
    } else {
      assert c[NextPiece(c)..] == AfterLine(c);
    }
  }

  lemma {:induction false} PiecesAreShort(c: seq<byte>, test: Test)
    ensures forall i :: 0 <= i < |Hits(Pieces(c), test)| ==> |Hits(Pieces(c), test)[i]| <= BUFSIZE
    decreases |c|
  {
    if c != [] {
      PiecesUnfold(c, test);
      PiecesAreShort(c[NextPiece(c)..], test);
    }
  }

  lemma {:induction false} PiecesAreLines(c: seq<byte>, test: Test)
    ensures forall i :: 0 <= i < |Hits(Pieces(c), test)| ==> NoLineEnd(Hits(Pieces(c), test)[i])
    decreases |c|
  {
    if c != [] {
      PiecesUnfold(c, test);
      PiecesAreLines(c[NextPiece(c)..], test);
    }
  }

  lemma {:induction false} HitIsListed(lines: seq<seq<byte>>, test: Test, i: nat) returns (j: nat)
    requires i < |lines| && test(lines[i])
    ensures j < |Hits(lines, test)| && Hits(lines, test)[j] == lines[i]
  {
    if i == 0 {
      j := 0;
    } else {
      j := HitIsListed(lines[1..], test, i - 1);
      j := j + if test(lines[0]) then 1 else 0;
    }
  }

  lemma LongLackOfBoth(a: seq<seq<byte>>, b: seq<seq<byte>>, s: seq<byte>)
    ensures LongLack(a + b, s) <==> LongLack(a, s) && LongLack(b, s)
  {
    assert forall i :: 0 <= i < |a| ==> (a + b)[i] == a[i];
    assert forall i :: 0 <= i < |b| ==> (a + b)[|a| + i] == b[i];
  }

  lemma RestLacks(c: seq<byte>, s: seq<byte>)
    requires c != [] && LongLinesLack(c, s)
    ensures LongLinesLack(AfterLine(c), s)
    ensures LineEnd(c) > BUFSIZE ==> !Contains(c[..LineEnd(c)], s)
  {
    LinesUnfold(c);
    LongLackOfBoth([c[..LineEnd(c)]], Lines(AfterLine(c)), s);
    assert [c[..LineEnd(c)]][0] == c[..LineEnd(c)];
  }

  lemma {:induction false} FittingLinesAreFound(c: seq<byte>, s: seq<byte>)
    requires LongLinesLack(c, s)
    ensures Hits(Pieces(c), HitOf(s)) == Hits(Lines(c), HitOf(s))
    decreases |c|
  {
    if c != [] {
      var n := LineEnd(c);
      LinesUnfold(c);
      RestLacks(c, s);
      FittingLinesAreFound(AfterLine(c), s);
      if n <= BUFSIZE {
        ShortLine(c, s);
      } else {
        LineWithoutHits(c, s);
      }
    }
  }

  // ------------------------------------------------- a newline left behind the buffer

  /** If the byte behind the buffer happens to be a newline, the program takes it for
      the end of the first full buffer that does not end at a newline of its own, and
      cuts the line there; that byte is then overwritten.  `from` is where a buffer
      starts. */
  function CutAt(c: seq<byte>, from: nat): (k: nat)
    requires from <= |c|
    ensures from <= k <= |c| && IsCut(c, k)
    ensures from % BUFSIZE == 0 && k < |c| ==> k % BUFSIZE == 0
    decreases |c| - from
  {
    if from + BUFSIZE > |c| then |c|
    else if c[from + BUFSIZE - 1] != LF then from + BUFSIZE
    else CutAt(c, from + BUFSIZE)
  }

  /** The end of the text, or a place right behind a byte of some line. */
  predicate IsCut(c: seq<byte>, k: nat) {
    k <= |c| && (k < |c| ==> k > 0 && c[k - 1] != LF)
  }

  /** `stale`: the byte behind the buffer is a newline when the program starts. */
  function FirstCut(c: seq<byte>, stale: bool): (k: nat)
    ensures IsCut(c, k)
  {
    if stale then CutAt(c, 0) else |c|
  }

  /** The bytes before `m` fill a whole number of buffers, the last of which does not end
      at a newline. */
  predicate FullWithoutNewline(c: seq<byte>, m: nat) {
    0 < m <= |c| && m % BUFSIZE == 0 && c[m - 1] != LF
  }

  /** The cut is behind the first full buffer that does not end at a newline, and there
      is none without such a buffer. */
  lemma FirstCutIff(c: seq<byte>, k: nat)
    requires k <= |c|
    ensures FirstCut(c, true) == k
            <==> (k == |c| || FullWithoutNewline(c, k)) && forall m :: 0 <= m < k ==> !FullWithoutNewline(c, m)
  {
    CutAtIsFirst(c, 0);
    var cut := CutAt(c, 0);
    assert FullWithoutNewline(c, cut) || cut == |c|;
  }

  lemma {:induction false} CutAtIsFirst(c: seq<byte>, from: nat)
    requires from <= |c| && from % BUFSIZE == 0
    ensures CutAt(c, from) == |c| || FullWithoutNewline(c, CutAt(c, from))
    ensures forall m :: from < m < CutAt(c, from) ==> !FullWithoutNewline(c, m)
    decreases |c| - from
  {
    forall m | from < m < from + BUFSIZE
      ensures m % BUFSIZE != 0
    {
      NoMultipleBetween(from, m);
    }
    if from + BUFSIZE <= |c| && c[from + BUFSIZE - 1] == LF {
      CutAtIsFirst(c, from + BUFSIZE);
    }
  }

  lemma NoMultipleBetween(from: nat, m: nat)
    requires from % BUFSIZE == 0 && from < m < from + BUFSIZE
    ensures m % BUFSIZE != 0
  {
  }

  /** What the program searches, one after the other. */
  function CutPieces(c: seq<byte>, k: nat): seq<seq<byte>>
    requires k <= |c|
  {
    Pieces(c[..k]) + Pieces(c[k..])
  }

  /** Start of the line to which the byte before `k` belongs; `k` right behind a newline. */
  function LineStart(c: seq<byte>, k: nat): (a: nat)
    requires k <= |c|
    ensures a <= k && (a == 0 || c[a - 1] == LF)
    ensures forall i :: a <= i < k ==> c[i] != LF
  {
    if k == 0 || c[k - 1] == LF then k else LineStart(c, k - 1)
  }

  /** End of the line to which position `k` belongs. */
  function LineStop(c: seq<byte>, k: nat): (b: nat)
    requires k <= |c|
    ensures k <= b <= |c| && (b < |c| ==> c[b] == LF)
    ensures forall i :: k <= i < b ==> c[i] != LF
    decreases |c| - k
  {
    if k == |c| || c[k] == LF then k else LineStop(c, k + 1)
  }

  /** The cut falls at the end of a line, or into a line without the pattern. */
  predicate CutLineLacks(c: seq<byte>, k: nat, s: seq<byte>)
    requires k <= |c|
  {
    LineLacks(c, LineStart(c, k), k, LineStop(c, k), s)
  }

  /** The cut at `k` of the line from `a` to `b` is at its end, or the line lacks `s`. */
  predicate LineLacks(c: seq<byte>, a: nat, k: nat, b: nat, s: seq<byte>)
    requires a <= b <= |c|
  {
    k == b || !Contains(c[a..b], s)
  }

  lemma {:induction false} HitsAppend(a: seq<seq<byte>>, b: seq<seq<byte>>, test: Test)
    ensures Hits(a + b, test) == Hits(a, test) + Hits(b, test)
  {
    if a == [] {
      assert a + b == b;
    } else {
      HitsAppend(a[1..], b, test);
      TailOfAppend(a, b);
      Reassociate(OneHit(a[0], test), Hits(a[1..], test), Hits(b, test));
    }
  }

  lemma TailOfAppend(a: seq<seq<byte>>, b: seq<seq<byte>>)
    requires a != []
    ensures (a + b)[0] == a[0] && (a + b)[1..] == a[1..] + b
  {
  }

  lemma {:induction false} HitsAgree(lines: seq<seq<byte>>, test: Test, other: Test)
    requires forall line :: test(line) == other(line)
    ensures Hits(lines, test) == Hits(lines, other)
  {
    if lines != [] {
      HitsAgree(lines[1..], test, other);
    }
  }

  lemma {:induction false} NoHitsIff(lines: seq<seq<byte>>, test: Test)
    ensures Hits(lines, test) == [] <==> forall i :: 0 <= i < |lines| ==> !test(lines[i])
  {
    if lines != [] {
      NoHitsIff(lines[1..], test);
      assert forall i :: 1 <= i < |lines| ==> lines[i] == lines[1..][i - 1];
    }
  }

  /** A line without a newline in it, in front of the end of the text or of a newline. */
  lemma FirstLine(line: seq<byte>, back: seq<byte>)
    requires forall i :: 0 <= i < |line| ==> line[i] != LF
    requires if back == [] then line != [] else back[0] == LF
    ensures LineEnd(line + back) == |line|
    ensures Lines(line + back) == [line] + Lines(if back == [] then [] else back[1..])
  {
    var c := line + back;
    LineEndIs(c, |line|);
    LinesUnfold(c);
    assert c[..|line|] == line;
    if back != [] {
      assert c[|line| + 1..] == back[1..];
    }
  }

  /** A line, its newline and more. */
  lemma LineAndMore(c: seq<byte>, line: seq<byte>, more: seq<byte>)
    requires c == line + ([LF] + more) && forall i :: 0 <= i < |line| ==> line[i] != LF
    ensures Lines(c) == [line] + Lines(more)
  {
    FirstLine(line, [LF] + more);
    assert ([LF] + more)[1..] == more;
  }

  lemma SplitAt(c: seq<byte>, n: nat)
    requires n < |c|
    ensures c == c[..n] + ([c[n]] + c[n + 1..])
  {
  }

  lemma AppendInside(line: seq<byte>, more: seq<byte>, rest: seq<byte>)
    ensures (line + ([LF] + more)) + rest == line + ([LF] + (more + rest))
  {
  }

  /** The lines before and after the start of a line. */
  lemma {:induction false} LinesSplit(front: seq<byte>, rest: seq<byte>)
    requires front == [] || front[|front| - 1] == LF
    ensures Lines(front + rest) == Lines(front) + Lines(rest)
    decreases |front|
  {
    if front == [] {
      assert front + rest == rest;
    } else {
      var n := LineEnd(front);
      var line, more := front[..n], front[n + 1..];
      SplitAt(front, n);
      AppendInside(line, more, rest);
      LinesSplit(more, rest);
      LineAndMore(front, line, more);
      LineAndMore(front + rest, line, more + rest);
      Reassociate([line], Lines(more), Lines(rest));
    }
  }

  /** One line cut in two is found as before exactly if the cut is at its end or there
      is nothing to be found in it. */
  lemma OneHitCutIff(line: seq<byte>, i: nat, s: seq<byte>)
    requires 0 < i <= |line| && Searchable(s)
    ensures OneHit(line[..i], HitOf(s)) + OneHit(line[i..], HitOf(s)) == OneHit(line, HitOf(s))
            <==> i == |line| || !Contains(line, s)
  {
    var left, right := line[..i], line[i..];
    if Contains(line, s) {
      if i == |line| {
        assert left == line && right == [];
        assert !Contains([], s);
      } else {
        assert |left| < |line| && |right| < |line|;
        var found := OneHit(left, HitOf(s)) + OneHit(right, HitOf(s));
        assert forall j :: 0 <= j < |found| ==> |found[j]| < |line|;
        assert OneHit(line, HitOf(s))[0] == line;
      }
    } else {
      PartLacks(line, 0, i, s);
      PartLacks(line, i, |line|, s);
      assert line[0..i] == left && line[i..|line|] == right;
    }
  }

  lemma MiddleIff(a: seq<seq<byte>>, x: seq<seq<byte>>, y: seq<seq<byte>>, z: seq<seq<byte>>)
    ensures a + x + z == a + y + z <==> x == y
  {
    if a + x + z == a + y + z {
      assert |x| == |y|;
      assert (a + x + z)[|a|..|a| + |x|] == x;
      assert (a + y + z)[|a|..|a| + |y|] == y;
    }
  }

  /** What follows the line that ends at `b`. */
  function Behind(c: seq<byte>, b: nat): seq<byte>
    requires b <= |c|
  {
    if b < |c| then c[b + 1..] else []
  }

  /** A text whose position `k` lies in the line from `a` to `b`. */
  ghost predicate InTheLine(c: seq<byte>, a: nat, k: nat, b: nat) {
    && a < k <= b <= |c| && (a == 0 || c[a - 1] == LF) && (b < |c| ==> c[b] == LF)
    && (forall i :: a <= i < b ==> c[i] != LF)
    && k < |c|
  }

  /** The line that a cut goes through, in place. */
  lemma CutThrough(c: seq<byte>, a: nat, k: nat, b: nat)
    requires InTheLine(c, a, k, b)
    ensures Lines(c) == Lines(c[..a]) + ([c[a..b]] + Lines(Behind(c, b)))
    ensures Lines(c[..k]) == Lines(c[..a]) + [c[a..k]]
    ensures Lines(c[k..]) == [c[k..b]] + Lines(Behind(c, b))
  {
    LinesThrough(c, a, b);
    LinesUpTo(c, a, k);
    LinesFrom(c, k, b);
  }

  lemma LinesThrough(c: seq<byte>, a: nat, b: nat)
    requires a <= b <= |c| && a < |c| && (a == 0 || c[a - 1] == LF) && (b < |c| ==> c[b] == LF)
    requires forall i :: a <= i < b ==> c[i] != LF
    ensures Lines(c) == Lines(c[..a]) + ([c[a..b]] + Lines(Behind(c, b)))
  {
    JoinSlices(c, a, |c|);
    LinesSplit(c[..a], c[a..]);
    LinesFrom(c, a, b);
  }

  lemma LinesUpTo(c: seq<byte>, a: nat, k: nat)
    requires a < k <= |c| && (a == 0 || c[a - 1] == LF) && forall i :: a <= i < k ==> c[i] != LF
    ensures Lines(c[..k]) == Lines(c[..a]) + [c[a..k]]
  {
    JoinSlices(c, a, k);
    LinesSplit(c[..a], c[a..k]);
    OneLine(c[a..k]);
  }

  lemma JoinSlices(c: seq<byte>, a: nat, k: nat)
    requires a <= k <= |c|
    ensures c[..a] + c[a..k] == c[..k]
    ensures k == |c| ==> c[a..k] == c[a..] && c[..k] == c
  {
  }

  lemma OneLine(line: seq<byte>)
    requires line != [] && forall i :: 0 <= i < |line| ==> line[i] != LF
    ensures Lines(line) == [line]
  {
    LineEndIs(line, |line|);
  }

  lemma LinesFrom(c: seq<byte>, a: nat, b: nat)
    requires a <= b <= |c| && a < |c| && (b < |c| ==> c[b] == LF)
    requires forall i :: a <= i < b ==> c[i] != LF
    ensures Lines(c[a..]) == [c[a..b]] + Lines(Behind(c, b))
  {
    var rest := c[a..];
    SplitRange(c, a, b);
    FirstLine(c[a..b], c[b..]);
  }

  lemma SplitRange(c: seq<byte>, a: nat, b: nat)
    requires a <= b <= |c|
    ensures c[a..b] + c[b..] == c[a..]
    ensures Behind(c, b) == if c[b..] == [] then [] else c[b..][1..]
  {
    if b < |c| {
      assert c[b..][1..] == c[b + 1..];
    }
  }

  lemma HitsAround(before: seq<seq<byte>>, line: seq<byte>, after: seq<seq<byte>>, test: Test)
    ensures Hits(before + ([line] + after), test)
            == Hits(before, test) + OneHit(line, test) + Hits(after, test)
  {
    HitsAppend(before, [line] + after, test);
    HitsAppend([line], after, test);
    SingleHit(line, test);
    Reassociate(Hits(before, test), OneHit(line, test), Hits(after, test));
  }

  lemma HitsOfHalves(before: seq<seq<byte>>, left: seq<byte>, right: seq<byte>, after: seq<seq<byte>>, test: Test)
    ensures Hits(before + [left], test) + Hits([right] + after, test)
            == Hits(before, test) + (OneHit(left, test) + OneHit(right, test)) + Hits(after, test)
  {
    HitsAppend(before, [left], test);
    HitsAppend([right], after, test);
    SingleHit(left, test);
    SingleHit(right, test);
    Regroup(Hits(before, test), OneHit(left, test), OneHit(right, test), Hits(after, test));
  }

  lemma HitsOfCutPieces(c: seq<byte>, k: nat, s: seq<byte>)
    requires k <= |c| && LongLinesLack(c[..k], s) && LongLinesLack(c[k..], s)
    ensures Hits(CutPieces(c, k), HitOf(s)) == Hits(Lines(c[..k]), HitOf(s)) + Hits(Lines(c[k..]), HitOf(s))
  {
    FittingLinesAreFound(c[..k], s);
    FittingLinesAreFound(c[k..], s);
    HitsAppend(Pieces(c[..k]), Pieces(c[k..]), HitOf(s));
  }

  /** What is found with and without the cut differs at most in the line it goes
      through, so it is the same exactly if the cut is at the end of that line or there
      is nothing to be found in it. */
  lemma CutIsHarmlessIff(c: seq<byte>, a: nat, k: nat, b: nat, s: seq<byte>)
    requires InTheLine(c, a, k, b) && Searchable(s) && LongLinesLack(c, s)
    ensures Hits(CutPieces(c, k), HitOf(s)) == Hits(Lines(c), HitOf(s))
            <==> LineLacks(c, a, k, b, s)
  {
    var before, line, after := Lines(c[..a]), c[a..b], Lines(Behind(c, b));
    CutThrough(c, a, k, b);
    PartsLack(c, a, k, b, s);
    HitsOfCutPieces(c, k, s);
    HitsAround(before, line, after, HitOf(s));
    HitsOfHalves(before, c[a..k], c[k..b], after, HitOf(s));
    assert line[..k - a] == c[a..k] && line[k - a..] == c[k..b];
    OneHitCutIff(line, k - a, s);
    MiddleIff(Hits(before, HitOf(s)), OneHit(c[a..k], HitOf(s)) + OneHit(c[k..b], HitOf(s)),
              OneHit(line, HitOf(s)), Hits(after, HitOf(s)));
  }

  lemma SingleHit(line: seq<byte>, test: Test)
    ensures Hits([line], test) == OneHit(line, test)
  {
    assert [line][1..] == [];
    assert OneHit(line, test) + [] == OneHit(line, test);
  }

  lemma Reassociate(a: seq<seq<byte>>, b: seq<seq<byte>>, c: seq<seq<byte>>)
    ensures a + (b + c) == (a + b) + c
  {
  }

  lemma Regroup(a: seq<seq<byte>>, x: seq<seq<byte>>, y: seq<seq<byte>>, z: seq<seq<byte>>)
    ensures (a + x) + (y + z) == a + (x + y) + z
  {
  }

  lemma PartsLack(c: seq<byte>, a: nat, k: nat, b: nat, s: seq<byte>)
    requires InTheLine(c, a, k, b) && LongLinesLack(c, s)
    ensures LongLinesLack(c[..k], s) && LongLinesLack(c[k..], s)
  {
    CutThrough(c, a, k, b);
    ContainedInRange(c, a, k, a, b, s);
    ContainedInRange(c, k, b, a, b, s);
    HalvesLack(Lines(c[..a]), c[a..b], c[a..k], c[k..b], Lines(Behind(c, b)), s);
  }

  lemma HalvesLack(before: seq<seq<byte>>, line: seq<byte>, left: seq<byte>, right: seq<byte>,
                   after: seq<seq<byte>>, s: seq<byte>)
    requires LongLack(before + ([line] + after), s)
    requires |left| <= |line| && (Contains(left, s) ==> Contains(line, s))
    requires |right| <= |line| && (Contains(right, s) ==> Contains(line, s))
    ensures LongLack(before + [left], s) && LongLack([right] + after, s)
  {
    LongLackOfBoth(before, [line] + after, s);
    LongLackOfBoth([line], after, s);
    LongLackOfBoth(before, [left], s);
    LongLackOfBoth([right], after, s);
    assert [line][0] == line;
  }

  lemma RangeInRange(c: seq<byte>, lo: nat, hi: nat, a: nat, b: nat)
    requires a <= lo <= hi <= b <= |c|
    ensures c[a..b][lo - a..hi - a] == c[lo..hi]
  {
    var line := c[a..b];
    var x, y := line[lo - a..hi - a], c[lo..hi];
    assert forall i :: 0 <= i < hi - lo ==> x[i] == y[i];
  }

  lemma ContainedInRange(c: seq<byte>, lo: nat, hi: nat, a: nat, b: nat, s: seq<byte>)
    requires a <= lo <= hi <= b <= |c|
    ensures Contains(c[lo..hi], s) ==> Contains(c[a..b], s)
  {
    RangeInRange(c, lo, hi, a, b);
    if Contains(c[lo..hi], s) {
      OccursInSlice(c[a..b], lo - a, hi - a, s);
    }
  }

  /** When the program finds what it is meant to find. */
  predicate SearchIsExact(c: seq<byte>, k: nat, s: seq<byte>)
    requires k <= |c|
  {
    if Searchable(s) then LongLinesLack(c, s) && CutLineLacks(c, k, s)
    else forall i :: 0 <= i < |Lines(c)| ==> !Contains(Lines(c)[i], s)
  }

  lemma SearchableIsExactIff(c: seq<byte>, k: nat, s: seq<byte>)
    requires IsCut(c, k) && Searchable(s)
    ensures Hits(CutPieces(c, k), HitOf(s)) == Hits(Lines(c), HitOf(s))
            <==> LongLinesLack(c, s) && CutLineLacks(c, k, s)
  {
    if !LongLinesLack(c, s) {
      LongLineIsMissed(c, k, s);
    } else if k == |c| {
      FittingLinesAreFound(c, s);
      NothingCut(c);
    } else {
      CutIsHarmless(c, k, s);
    }
  }

  lemma CutIsHarmless(c: seq<byte>, k: nat, s: seq<byte>)
    requires IsCut(c, k) && k < |c| && Searchable(s) && LongLinesLack(c, s)
    ensures Hits(CutPieces(c, k), HitOf(s)) == Hits(Lines(c), HitOf(s)) <==> CutLineLacks(c, k, s)
  {
    CutIsHarmlessIff(c, LineStart(c, k), k, LineStop(c, k), s);
  }

  lemma NothingCut(c: seq<byte>)
    ensures CutPieces(c, |c|) == Pieces(c) && LineStop(c, |c|) == |c|
  {
    assert c[..|c|] == c && c[|c|..] == [];
  }

  lemma LongLineIsMissed(c: seq<byte>, k: nat, s: seq<byte>)
    requires k <= |c| && Searchable(s) && !LongLinesLack(c, s)
    ensures Hits(CutPieces(c, k), HitOf(s)) != Hits(Lines(c), HitOf(s))
  {
    var i :| 0 <= i < |Lines(c)| && |Lines(c)[i]| > BUFSIZE && Contains(Lines(c)[i], s);
    var j := HitIsListed(Lines(c), HitOf(s), i);
    HitsAppend(Pieces(c[..k]), Pieces(c[k..]), HitOf(s));
    PiecesAreShort(c[..k], HitOf(s));
    PiecesAreShort(c[k..], HitOf(s));
    assert |Hits(Lines(c), HitOf(s))[j]| > BUFSIZE;
  }

  /**
   For every file and pattern: the program reports what a search of the whole lines
   for the pattern would report if and only if no line of more than 1024 bytes
   contains the pattern and the cut, if there is one, does not go through a line that
   does - or, for a pattern the program cannot find, if no line contains it.
   */
  lemma BufferedSearchIsExactIff(c: seq<byte>, k: nat, s: seq<byte>)
    requires IsCut(c, k)
    ensures Hits(CutPieces(c, k), HitOf(s)) == Hits(Lines(c), ContainsOf(s)) <==> SearchIsExact(c, k, s)
  {
    if Searchable(s) {
      HitsAgree(Lines(c), HitOf(s), ContainsOf(s));
      SearchableIsExactIff(c, k, s);
    } else {
      NoHitsIff(CutPieces(c, k), HitOf(s));
      NoHitsIff(Lines(c), ContainsOf(s));
    }
  }

  /** A pattern that begins with a byte above 127 is in the file, and is not found. */
  lemma HighBytesAreMissed()
    ensures var c, s := [200, LF], [200];
            && Hits(Lines(c), ContainsOf(s)) == [[200]]
            && Hits(CutPieces(c, |c|), HitOf(s)) == []
  {
    var c: seq<byte>, s: seq<byte> := [200, LF], [200];
    LineEndIs(c, 1);
    LinesUnfold(c);
    assert c[..1] == [200] && AfterLine(c) == [];
    assert Lines(c) == [[200]];
    assert OccursAt([200], s, 0);
    SingleHit([200], ContainsOf(s));
    NoHitsIff(CutPieces(c, |c|), HitOf(s));
  }

  /** 1025 bytes: an empty line, and a line of 1024 bytes whose last two are the pattern. */
  function StraddlingText(): (c: seq<byte>)
    ensures |c| == BUFSIZE + 1 && c[0] == LF && c[BUFSIZE] == 98
    ensures forall i :: 1 <= i < BUFSIZE ==> c[i] == 97
  {
    [LF] + seq(BUFSIZE - 1, _ => 97) + [98]
  }

  /** A newline that happened to lie behind the buffer makes the program miss a line
      that it finds otherwise. */
  lemma StaleNewlineLosesALine()
    ensures var c, s := StraddlingText(), [97, 98];
            && SearchIsExact(c, FirstCut(c, false), s)
            && FirstCut(c, true) == BUFSIZE
            && !SearchIsExact(c, FirstCut(c, true), s)
  {
    var c: seq<byte>, s: seq<byte> := StraddlingText(), [97, 98];
    LinesOfStraddlingText();
    assert LineStop(c, |c|) == |c|;
    CutOfStraddlingText(c, s);
  }

  lemma CutOfStraddlingText(c: seq<byte>, s: seq<byte>)
    requires c == StraddlingText() && s == [97, 98]
    ensures !CutLineLacks(c, BUFSIZE, s)
  {
    LineStartIs(c, BUFSIZE, 1);
    assert LineStop(c, BUFSIZE) == BUFSIZE + 1;
    var line := c[1..BUFSIZE + 1];
    assert line[BUFSIZE - 2..BUFSIZE] == s;
    assert OccursAt(line, s, BUFSIZE - 2);
  }

  lemma {:induction false} LineStartIs(c: seq<byte>, k: nat, a: nat)
    requires a <= k <= |c| && (a == 0 || c[a - 1] == LF) && forall i :: a <= i < k ==> c[i] != LF
    ensures LineStart(c, k) == a
    decreases k
  {
    if a < k {
      LineStartIs(c, k - 1, a);
    }
  }

  lemma LinesOfStraddlingText()
    ensures var c := StraddlingText();
            Lines(c) == [[], c[1..]] && forall i :: 0 <= i < |Lines(c)| ==> |Lines(c)[i]| <= BUFSIZE
  {
    var c := StraddlingText();
    LineEndIs(c, 0);
    LinesUnfold(c);
    var rest := c[1..];
    assert c[..0] == [];
    LineEndIs(rest, |rest|);
    assert Lines(rest) == [rest];
  }

  // -------------------------------------------------------------------- the output

  /** One reported line: `fname:line` and a newline. */
  function RenderOne(fname: seq<byte>, line: seq<byte>): seq<byte> {
    fname + [58] + line + [LF]
  }

  function Render(fname: seq<byte>, lines: seq<seq<byte>>): seq<byte> {
    if lines == [] then []
    else Render(fname, lines[..|lines| - 1]) + RenderOne(fname, lines[|lines| - 1])
  }

  /** `out` has one line for each hit, in order: the file's name, a colon and the hit. */
  predicate ListsHits(out: seq<byte>, fname: seq<byte>, hits: seq<seq<byte>>) {
    && AreReports(Lines(out), fname, hits)
    && (hits != [] ==> out != [] && out[|out| - 1] == LF)
  }

  predicate AreReports(lines: seq<seq<byte>>, fname: seq<byte>, hits: seq<seq<byte>>) {
    && |lines| == |hits|
    && forall i :: 0 <= i < |hits| ==> lines[i] == fname + [58] + hits[i]
  }

  lemma {:induction false} RenderListsHits(fname: seq<byte>, hits: seq<seq<byte>>)
    requires NoLineEnd(fname) && forall i :: 0 <= i < |hits| ==> NoLineEnd(hits[i])
    ensures ListsHits(Render(fname, hits), fname, hits)
  {
    if hits != [] {
      var front, hit := hits[..|hits| - 1], hits[|hits| - 1];
      var line := fname + [58] + hit;
      RenderListsHits(fname, front);
      RenderedLine(fname, hit, line);
      LinesSplit(Render(fname, front), RenderOne(fname, hit));
      OneReportMore(Lines(Render(fname, front)), fname, front, line, hit);
      assert hits == front + [hit];
    }
  }

  lemma RenderedLine(fname: seq<byte>, hit: seq<byte>, line: seq<byte>)
    requires NoLineEnd(fname) && NoLineEnd(hit) && line == fname + [58] + hit
    ensures Lines(RenderOne(fname, hit)) == [line]
    ensures RenderOne(fname, hit)[|RenderOne(fname, hit)| - 1] == LF
  {
    assert NoLineEnd(line);
    assert RenderOne(fname, hit) == line + ([LF] + []);
    LineAndMore(RenderOne(fname, hit), line, []);
  }

  lemma OneReportMore(lines: seq<seq<byte>>, fname: seq<byte>, hits: seq<seq<byte>>, line: seq<byte>, hit: seq<byte>)
    requires AreReports(lines, fname, hits) && line == fname + [58] + hit
    ensures AreReports(lines + [line], fname, hits + [hit])
  {
  }

  lemma OutputListsHits(fname: seq<byte>, c: seq<byte>, k: nat, s: seq<byte>)
    requires k <= |c| && NoLineEnd(fname)
    ensures var hits := Hits(CutPieces(c, k), HitOf(s));
            ListsHits(Render(fname, hits), fname, hits)
  {
    HitsAppend(Pieces(c[..k]), Pieces(c[k..]), HitOf(s));
    PiecesAreLines(c[..k], HitOf(s));
    PiecesAreLines(c[k..], HitOf(s));
    RenderListsHits(fname, Hits(CutPieces(c, k), HitOf(s)));
  }

  // ------------------------------------------------------------------- the program

  predicate NoNul(s: seq<byte>) { forall i :: 0 <= i < |s| ==> s[i] != 0 }

  /** `ece391_strncmp(data + at, s, |s|)`, for a text that ends with the NUL at `end`. */
  method Strncmp(data: array<byte>, at: nat, end: nat, s: seq<byte>) returns (equal: bool)
    requires at <= end < data.Length && data[end] == 0 && NoNul(data[at..end]) && NoNul(s)
    ensures equal <==> OccursAt(data[at..end], s, 0)
  {
    if |s| == 0 {
      return true;
    }
    var k := 0;
    while data[at + k] == s[k]
      invariant 0 <= k < |s| && at + k <= end
      invariant forall i :: at <= i < at + k ==> data[i] == s[i - at]
      decreases |s| - k
    {
      assert at + k < end;
      if k + 1 == |s| {
        assert data[at..end][..|s|] == s;
        return true;
      }
      k := k + 1;
    }
    OccurrenceAt(data[at..end], 0, s, k);
    return false;
  }

  /** The search of one NUL-terminated line. */
  method SearchLine(data: array<byte>, start: nat, end: nat, s: seq<byte>) returns (hit: bool)
    requires start <= end < data.Length && data[end] == 0 && NoNul(data[start..end]) && NoNul(s)
    ensures hit <==> Hit(data[start..end], s)
  {
    ghost var line := data[start..end];
    var check := start;
    while check < end
      invariant start <= check <= end
      invariant Searchable(s) ==> forall i :: 0 <= i < check - start ==> !OccursAt(line, s, i)
    {
      if s != [] && s[0] < 128 && s[0] == data[check] {
        var equal := Strncmp(data, check, end, s);
        OccursFrom(line, check - start, s);
        assert line[check - start..] == data[check..end];
        if equal {
          return true;
        }
      }
      OccurrenceAt(line, check - start, s, 0);
      check := check + 1;
    }
    return false;
  }

  lemma OccurrenceAt(line: seq<byte>, i: nat, s: seq<byte>, k: nat)
    ensures k < |s| && OccursAt(line, s, i) ==> line[i + k] == s[k]
  {
    if k < |s| && OccursAt(line, s, i) {
      assert line[i..i + |s|][k] == line[i + k];
    }
  }

  lemma OccursFrom(line: seq<byte>, i: nat, s: seq<byte>)
    requires i <= |line|
    ensures OccursAt(line[i..], s, 0) <==> OccursAt(line, s, i)
  {
    if i + |s| <= |line| {
      assert line[i..][0..|s|] == line[i..i + |s|];
    }
  }

  /** `ece391_strcpy(data, data + from)`, for the text that ends at `end`. */
  method ShiftDown(data: array<byte>, from: nat, end: nat)
    requires 0 < from <= end < data.Length && data[end] == 0 && NoNul(data[from..end])
    modifies data
    ensures data[..end - from] == old(data[from..end])
    ensures data[end] == old(data[end])
    ensures forall i :: end < i < data.Length ==> data[i] == old(data[i])
  {
    forall i | from <= i < end
      ensures data[i] != 0
    {
      assert data[from..end][i - from] == data[i];
    }
    var k := 0;
    while data[from + k] != 0
      invariant 0 <= k <= end - from
      invariant data[..k] == old(data[from..from + k])
      invariant forall i :: k <= i < data.Length ==> data[i] == old(data[i])
      decreases end - from - k
    {
      data[k] := data[from + k];
      k := k + 1;
    }
    assert k == end - from;
    data[k] := 0;
  }

  /** The end of the line that starts at `start`, or of the buffered bytes. */
  method FindEnd(data: array<byte>, start: nat, last: nat) returns (end: nat)
    requires start <= last < data.Length
    ensures start <= end <= last && (end < last ==> data[end] == LF)
    ensures forall i :: start <= i < end ==> data[i] != LF
  {
    end := start;
    while end < last && data[end] != LF
      invariant start <= end <= last
      invariant forall i :: start <= i < end ==> data[i] != LF
    {
      end := end + 1;
    }
  }

  /** What the program finds in a part of the text. */
  ghost function HitsIn(c: seq<byte>, lo: nat, hi: nat, test: Test): seq<seq<byte>>
    requires lo <= hi <= |c|
  {
    Hits(Pieces(c[lo..hi]), test)
  }

  /** What is found in a part of a text, by its bounds. */
  type Finder = (nat, nat) -> seq<seq<byte>>

  ghost function FinderOf(c: seq<byte>, test: Test): Finder {
    (lo: nat, hi: nat) => if lo <= hi <= |c| then HitsIn(c, lo, hi, test) else []
  }

  /** What is still to be found from a position on. */
  type Remaining = nat -> seq<seq<byte>>

  /** The same for a text of `n` bytes with a cut at `k`. */
  ghost function RemainingOf(found: Finder, n: nat, k: nat): Remaining {
    (p: nat) => if p < k then found(p, k) + found(k, n) else found(p, n)
  }

  /** The line found in the buffer is the next piece of the file: it ends at a
      newline, or the buffer is full, or the file is at its end. */
  lemma BufferedPiece(t: seq<byte>, n: nat, e: nat)
    requires e <= n <= |t| && 0 < n <= BUFSIZE
    requires NoNewline(t, 0, e) && (e < n ==> t[e] == LF)
    requires e < n || n == BUFSIZE || n == |t|
    ensures PieceEnd(t) == e
    ensures NextPiece(t) == if e < n then e + 1 else n
  {
    var m := LineEnd(t);
    if e < n || n == |t| {
      LineEndIs(t, e);
    } else {
      assert n <= m;
    }
  }

  /** No newline at positions `from` to `to`. */
  ghost predicate NoNewline(c: seq<byte>, from: nat, to: nat) {
    to <= |c| && forall i :: from <= i < to ==> c[i] != LF
  }

  /** Of the `n` buffered bytes from position `p` of the file, which do not cross the
      cut `k`, the first `e` are the next line to search: it ends at a newline, or the
      buffer is full, or the file or its part before the cut is at its end. */
  ghost predicate BufferedLine(c: seq<byte>, k: nat, p: nat, n: nat, e: nat) {
    && k <= |c| && e <= n && 0 < n <= BUFSIZE && p + n <= |c|
    && NoNewline(c, p, p + e) && (e < n ==> c[p + e] == LF)
    && (p < k ==> p + n <= k)
    && (e < n || n == BUFSIZE || p + n == |c| || p + n == k)
  }

  /** Searching the next line of a text takes care of its first piece. */
  lemma NextHits(t: seq<byte>, line: seq<byte>, rest: seq<byte>, n: nat, e: nat, test: Test)
    requires e <= n <= |t| && 0 < n <= BUFSIZE
    requires NoNewline(t, 0, e) && (e < n ==> t[e] == LF)
    requires e < n || n == BUFSIZE || n == |t|
    requires line == t[..e] && rest == t[Min(e + 1, n)..]
    ensures Hits(Pieces(t), test) == OneHit(line, test) + Hits(Pieces(rest), test)
  {
    BufferedPiece(t, n, e);
    PiecesUnfold(t, test);
  }

  /** Searching the next line of a part of the text. */
  lemma FinderStep(found: Finder, c: seq<byte>, p: nat, hi: nat, n: nat, e: nat, test: Test)
    requires found == FinderOf(c, test)
    requires p <= hi <= |c| && e <= n && 0 < n <= BUFSIZE && p + n <= hi
    requires NoNewline(c, p, p + e) && (e < n ==> c[p + e] == LF)
    requires e < n || n == BUFSIZE || p + n == hi
    ensures found(p, hi) == OneHit(c[p..p + e], test) + found(p + Min(e + 1, n), hi)
  {
    var m := p + Min(e + 1, n);
    var part, line, rest := c[p..hi], c[p..p + e], c[m..hi];
    assert Hits(Pieces(part), test) == OneHit(line, test) + Hits(Pieces(rest), test) by {
      LineOfRange(c, p, hi, n, e);
      SlicesOfRange(c, p, hi, e, m);
      NextHits(part, line, rest, n, e, test);
    }
    assert found(p, hi) == Hits(Pieces(part), test) by {
      FinderAt(found, c, p, hi, test, part);
    }
    assert found(m, hi) == Hits(Pieces(rest), test) by {
      FinderAt(found, c, m, hi, test, rest);
    }
  }

  lemma FinderAt(found: Finder, c: seq<byte>, lo: nat, hi: nat, test: Test, part: seq<byte>)
    requires found == FinderOf(c, test) && lo <= hi <= |c| && part == c[lo..hi]
    ensures found(lo, hi) == Hits(Pieces(part), test)
  {
  }

  lemma LineOfRange(c: seq<byte>, p: nat, hi: nat, n: nat, e: nat)
    requires p <= hi <= |c| && e <= n && p + n <= hi
    requires NoNewline(c, p, p + e) && (e < n ==> c[p + e] == LF)
    ensures NoNewline(c[p..hi], 0, e) && (e < n ==> c[p..hi][e] == LF)
  {
    var t := c[p..hi];
    assert forall i :: 0 <= i < |t| ==> t[i] == c[p + i];
  }

  lemma SlicesOfRange(c: seq<byte>, p: nat, hi: nat, e: nat, m: nat)
    requires p <= hi <= |c| && p + e <= hi && p <= m <= hi
    ensures c[p..hi][..e] == c[p..p + e] && c[p..hi][m - p..] == c[m..hi]
  {
  }

  lemma Account(hit: seq<seq<byte>>, after: seq<seq<byte>>, back: seq<seq<byte>>)
    ensures (hit + after) + back == hit + (after + back)
    ensures after == [] ==> (hit + after) + back == hit + back
  {
  }

  lemma NothingFound(found: Finder, c: seq<byte>, k: nat, test: Test)
    requires found == FinderOf(c, test) && k <= |c|
    ensures found(k, k) == []
  {
    assert c[k..k] == [];
  }

  /** What is printed about a line. */
  function Reported(fname: seq<byte>, line: seq<byte>, test: Test): seq<byte> {
    if test(line) then RenderOne(fname, line) else []
  }

  /** The output so far is right for a search that has reached position `p`: what has
      been reported and what remains make up everything. */
  ghost predicate RightSoFar(left: Remaining, fname: seq<byte>, out: seq<byte>, p: nat) {
    exists done :: done + left(p) == left(0) && out == Render(fname, done)
  }

  /** Each line found in the buffer is the next one of what remains.  The loops are
      proved for any such account of what remains. */
  ghost predicate KeptBySearch(left: Remaining, c: seq<byte>, k: nat, test: Test) {
    forall p: nat, n: nat, e: nat {:trigger BufferedLine(c, k, p, n, e)} ::
      BufferedLine(c, k, p, n, e) ==> left(p) == OneHit(c[p..p + e], test) + left(p + Min(e + 1, n))
  }

  /** The end of the part that is searched from `p` on: the cut, or the end of the text. */
  ghost function PartEnd(c: seq<byte>, k: nat, p: nat): nat { if p < k then k else |c| }

  ghost predicate FinderKept(found: Finder, c: seq<byte>, k: nat, test: Test) {
    forall p: nat, n: nat, e: nat {:trigger BufferedLine(c, k, p, n, e)} :: BufferedLine(c, k, p, n, e) ==>
      found(p, PartEnd(c, k, p)) == OneHit(c[p..p + e], test) + found(p + Min(e + 1, n), PartEnd(c, k, p))
  }

  lemma FinderIsKept(found: Finder, c: seq<byte>, k: nat, test: Test)
    requires found == FinderOf(c, test)
    ensures FinderKept(found, c, k, test)
  {
    forall p: nat, n: nat, e: nat {:trigger BufferedLine(c, k, p, n, e)} | BufferedLine(c, k, p, n, e)
      ensures found(p, PartEnd(c, k, p)) == OneHit(c[p..p + e], test) + found(p + Min(e + 1, n), PartEnd(c, k, p))
    {
      FinderStep(found, c, p, PartEnd(c, k, p), n, e, test);
    }
  }

  lemma RemainingIsKept(found: Finder, c: seq<byte>, k: nat, test: Test)
    requires FinderKept(found, c, k, test) && found(k, k) == []
    ensures KeptBySearch(RemainingOf(found, |c|, k), c, k, test)
  {
    var left := RemainingOf(found, |c|, k);
    forall p: nat, n: nat, e: nat {:trigger BufferedLine(c, k, p, n, e)} | BufferedLine(c, k, p, n, e)
      ensures left(p) == OneHit(c[p..p + e], test) + left(p + Min(e + 1, n))
    {
      RemainingStep(found, left, |c|, k, p, p + Min(e + 1, n), OneHit(c[p..p + e], test));
    }
  }

  lemma SearchIsKept(c: seq<byte>, k: nat, test: Test)
    requires k <= |c|
    ensures KeptBySearch(RemainingOf(FinderOf(c, test), |c|, k), c, k, test)
  {
    FinderIsKept(FinderOf(c, test), c, k, test);
    NothingFound(FinderOf(c, test), c, k, test);
    RemainingIsKept(FinderOf(c, test), c, k, test);
  }

  lemma RemainingStep(found: Finder, left: Remaining, n: nat, k: nat, p: nat, m: nat, hit: seq<seq<byte>>)
    requires left == RemainingOf(found, n, k) && k <= n && p <= m <= (if p < k then k else n)
    requires found(k, k) == []
    requires p < k ==> found(p, k) == hit + found(m, k)
    requires p >= k ==> found(p, n) == hit + found(m, n)
    ensures left(p) == hit + left(m)
  {
    if p < k {
      Account(hit, found(m, k), found(k, n));
    }
  }

  lemma StillRight(
    left: Remaining, c: seq<byte>, k: nat, test: Test, fname: seq<byte>, out: seq<byte>, p: nat, n: nat, e: nat)
    requires KeptBySearch(left, c, k, test) && RightSoFar(left, fname, out, p) && BufferedLine(c, k, p, n, e)
    ensures RightSoFar(left, fname, out + Reported(fname, c[p..p + e], test), p + Min(e + 1, n))
  {
    var done :| done + left(p) == left(0) && out == Render(fname, done);
    var hit := OneHit(c[p..p + e], test);
    Reassociate(done, hit, left(p + Min(e + 1, n)));
    RenderMore(fname, done, c[p..p + e], test);
  }

  lemma RenderMore(fname: seq<byte>, done: seq<seq<byte>>, line: seq<byte>, test: Test)
    ensures Render(fname, done + OneHit(line, test)) == Render(fname, done) + Reported(fname, line, test)
  {
    if test(line) {
      assert (done + [line])[..|done|] == done;
    } else {
      assert done + [] == done;
    }
  }

  // --------------------------------------------------------------- the buffered loop

  /** The buffer holds the file's bytes from `base` on. */
  ghost predicate Loaded(data: seq<byte>, from: nat, last: nat, c: seq<byte>, base: nat) {
    && from <= last <= BUFSIZE < |data| && base + last <= |c|
    && data[from..last] == c[base + from..base + last]
  }

  /** Where the cut still to come is, if any, before a refill: `stale` is whether the
      byte behind the buffer is a newline, `last` bytes are kept from position `base`
      of the file on. */
  ghost predicate CutAhead(stale: bool, c: seq<byte>, k: nat, base: nat, last: nat) {
    && k <= |c| && base + last <= |c|
    && if stale then (k == |c| && base + last == |c|) || (last == 0 && k == CutAt(c, base))
       else base >= k || k == |c|
  }

  /** The same after a refill: a full buffer in front of a stale newline either ends
      at the cut or ends at a newline of its own. */
  ghost predicate CutAheadOfFull(stale: bool, c: seq<byte>, k: nat, base: nat, last: nat) {
    && k <= |c| && base + last <= |c| && (last == BUFSIZE || base + last == |c|)
    && if stale && last == BUFSIZE
       then k == if c[base + BUFSIZE - 1] != LF then base + BUFSIZE else CutAt(c, base + BUFSIZE)
       else k == |c| || (!stale && base >= k)
  }

  lemma CutAfterRefill(stale: bool, c: seq<byte>, k: nat, base: nat, last: nat, cnt: nat)
    requires CutAhead(stale, c, k, base, last) && last < BUFSIZE
    requires cnt == Min(BUFSIZE - last, |c| - (base + last))
    ensures CutAheadOfFull(stale, c, k, base, last + cnt)
  {
  }

  lemma PartLoaded(data: array<byte>, start: nat, end: nat, last: nat, c: seq<byte>, base: nat)
    requires data.Length == BUFSIZE + 1 && Loaded(data[..], start, last, c, base) && start <= end <= last
    ensures data[start..end] == c[base + start..base + end]
  {
    assert data[start..end] == data[..][start..last][..end - start];
    assert c[base + start..base + end] == c[base + start..base + last][..end - start];
  }

  /** Report the line in `data[start..end]` if it contains the pattern; what follows
      it in the buffer stays. */
  method ReportLine(data: array<byte>, start: nat, end: nat, last: nat, s: seq<byte>, fname: seq<byte>, out: seq<byte>,
                    ghost c: seq<byte>, ghost base: nat)
    returns (out': seq<byte>)
    requires data.Length == BUFSIZE + 1 && Loaded(data[..], start, last, c, base) && start <= end <= last
    requires NoNul(c) && NoNul(s)
    modifies data
    ensures data[BUFSIZE] == if end == BUFSIZE then 0 else old(data[BUFSIZE])
    ensures end < last ==> Loaded(data[..], end + 1, last, c, base)
    ensures out' == out + Reported(fname, c[base + start..base + end], HitOf(s))
  {
    ghost var line := c[base + start..base + end];
    PartLoaded(data, start, end, last, c, base);
    data[end] := 0;
    assert data[start..end] == line;
    var hit := SearchLine(data, start, end, s);
    if hit {
      out' := out + RenderOne(fname, data[start..end]);
    } else {
      out' := out;
      assert out + [] == out;
    }
    if end < last {
      assert data[..][end + 1..last] == old(data[..])[start..last][end + 1 - start..];
      assert c[base + end + 1..base + last] == c[base + start..base + last][end + 1 - start..];
    }
  }

  /** Move the unfinished line to the front of the buffer. */
  method KeepRest(data: array<byte>, start: nat, last: nat, ghost c: seq<byte>, ghost base: nat)
    requires data.Length == BUFSIZE + 1 && Loaded(data[..], start, last, c, base) && 0 < start
    requires NoNul(c)
    modifies data
    ensures data[BUFSIZE] == if last == BUFSIZE then 0 else old(data[BUFSIZE])
    ensures Loaded(data[..], 0, last - start, c, base + start)
  {
    PartLoaded(data, start, last, last, c, base);
    data[last] := 0;
    assert data[start..last] == c[base + start..base + last];
    ShiftDown(data, start, last);
    assert data[..][0..last - start] == data[..last - start];
  }

  lemma NothingInEmptyLine(fname: seq<byte>, s: seq<byte>)
    ensures Reported(fname, [], HitOf(s)) == []
  {
  }

  /** The same bytes, one by one. */
  lemma SameBytes(data: array<byte>, start: nat, end: nat, last: nat, c: seq<byte>, base: nat)
    requires data.Length == BUFSIZE + 1 && Loaded(data[..], start, last, c, base) && start <= end <= last
    requires forall i :: start <= i < end ==> data[i] != LF
    requires end < last ==> data[end] == LF
    ensures NoNewline(c, base + start, base + end) && (end < last ==> c[base + end] == LF)
  {
    var x, y := data[..][start..last], c[base + start..base + last];
    forall i | base + start <= i < base + last
      ensures c[i] == data[i - base]
    {
      assert x[i - base - start] == y[i - base - start];
    }
  }

  /** The bytes up to `end` are the next line to search: nothing of them lies behind
      the cut, and the buffer, the file or its part before the cut ends with them if no
      newline does. */
  ghost predicate LineReady(c: seq<byte>, k: nat, base: nat, start: nat, end: nat, last: nat) {
    && k <= |c| && base + last <= |c| && start <= end <= last <= BUFSIZE
    && NoNewline(c, base + start, base + end) && (end < last ==> c[base + end] == LF)
    && (base + start < k ==> base + last <= k)
    && (end < last || last - start == BUFSIZE || base + last == |c| || base + last == k)
  }

  /** Search the line that ends at `end`, the first in `data[start..last]`. */
  method SearchNext(data: array<byte>, start: nat, end: nat, last: nat, s: seq<byte>, fname: seq<byte>, out: seq<byte>,
                    ghost c: seq<byte>, ghost k: nat, ghost base: nat, ghost left: Remaining)
    returns (out': seq<byte>)
    requires data.Length == BUFSIZE + 1 && Loaded(data[..], start, last, c, base)
    requires NoNul(c) && NoNul(s) && (start < last || last == 0)
    requires LineReady(c, k, base, start, end, last)
    requires KeptBySearch(left, c, k, HitOf(s)) && RightSoFar(left, fname, out, base + start)
    modifies data
    ensures data[BUFSIZE] == if end == BUFSIZE then 0 else old(data[BUFSIZE])
    ensures end < last ==> Loaded(data[..], end + 1, last, c, base)
    ensures RightSoFar(left, fname, out', base + Min(end + 1, last))
  {
    ghost var p, n, e := base + start, last - start, end - start;
    if start < last {
      StillRight(left, c, k, HitOf(s), fname, out, p, n, e);
      assert p + Min(e + 1, n) == base + Min(end + 1, last) && p + e == base + end;
    } else {
      NothingInEmptyLine(fname, s);
      assert c[p..p + e] == [] && out + [] == out;
    }
    out' := ReportLine(data, start, end, last, s, fname, out, c, base);
  }

  /** The line found is ready to be searched, unless it is unfinished and not at the
      front of the buffer. */
  lemma FoundLineIsReady(stale: bool, c: seq<byte>, k: nat, base: nat, start: nat, end: nat, last: nat)
    requires CutAheadOfFull(stale, c, k, base, last) && start <= end <= last <= BUFSIZE
    requires NoNewline(c, base + start, base + end) && (end < last ==> c[base + end] == LF)
    requires start < last || start == 0
    requires end < last || start == 0 || stale || last < BUFSIZE
    ensures LineReady(c, k, base, start, end, last)
  {
    if stale && last == BUFSIZE && end == last && start != 0 {
      assert c[base + BUFSIZE - 1] != LF;
    }
  }

  /** The inner loop: search every line that ends in the buffer; keep an unfinished
      one at the front, unless it fills the buffer, the file is at its end, or the byte
      behind the buffer looks like its end. */
  method SearchBuffer(data: array<byte>, last: nat, more: bool, s: seq<byte>, fname: seq<byte>, out: seq<byte>,
                      ghost c: seq<byte>, ghost k: nat, ghost base: nat, ghost left: Remaining)
    returns (last': nat, out': seq<byte>)
    requires data.Length == BUFSIZE + 1 && Loaded(data[..], 0, last, c, base)
    requires NoNul(c) && NoNul(s)
    requires CutAheadOfFull(data[BUFSIZE] == LF, c, k, base, last)
    requires !more ==> last < BUFSIZE && NoNewline(c, base, base + last)
    requires KeptBySearch(left, c, k, HitOf(s)) && RightSoFar(left, fname, out, base)
    modifies data
    ensures last' <= last && last' < BUFSIZE
    ensures Loaded(data[..], 0, last', c, base + last - last')
    ensures NoNewline(c, base + last - last', base + last)
    ensures CutAhead(data[BUFSIZE] == LF, c, k, base + last - last', last')
    ensures RightSoFar(left, fname, out', base + last - last')
    ensures !more ==> last' == 0
  {
    ghost var stale := data[BUFSIZE] == LF;
    out' := out;
    var start := 0;
    while true
      invariant start < last || start == 0
      invariant !more ==> start == 0
      invariant Loaded(data[..], start, last, c, base)
      invariant stale == (data[BUFSIZE] == LF)
      invariant RightSoFar(left, fname, out', base + start)
      decreases last - start
    {
      var end := FindLine(data, start, last, c, base);
      if data[end] != LF && more && start != 0 {
        CutAfterKeep(stale, data[end] == LF, c, k, base, start, end, last);
        KeepRest(data, start, last, c, base);
        last' := last - start;
        return;
      }
      FoundLineIsReady(stale, c, k, base, start, end, last);
      out' := SearchNext(data, start, end, last, s, fname, out', c, k, base, left);
      start := end + 1;
      if start >= last {
        CutAfterBuffer(stale, data[BUFSIZE] == LF, c, k, base, end, last);
        last' := 0;
        return;
      }
    }
  }

  /** The end of the next line, in the file's terms. */
  method FindLine(data: array<byte>, start: nat, last: nat, ghost c: seq<byte>, ghost base: nat) returns (end: nat)
    requires data.Length == BUFSIZE + 1 && Loaded(data[..], start, last, c, base)
    ensures start <= end <= last && (end < last ==> data[end] == LF && c[base + end] == LF)
    ensures NoNewline(c, base + start, base + end)
  {
    end := FindEnd(data, start, last);
    SameBytes(data, start, end, last, c, base);
  }

  /** Where the cut is once an unfinished line has been moved to the front. */
  lemma CutAfterKeep(stale: bool, lineEnds: bool, c: seq<byte>, k: nat, base: nat, start: nat, end: nat, last: nat)
    requires CutAheadOfFull(stale, c, k, base, last) && start <= end <= last <= BUFSIZE
    requires !lineEnds && (end < last ==> lineEnds) && (end == BUFSIZE ==> lineEnds == stale)
    ensures end == last && (last == BUFSIZE ==> !stale)
    ensures CutAhead(stale, c, k, base + start, last - start)
  {
  }

  /** Where the cut is once the whole buffer has been searched. */
  lemma CutAfterBuffer(stale: bool, now: bool, c: seq<byte>, k: nat, base: nat, end: nat, last: nat)
    requires CutAheadOfFull(stale, c, k, base, last) && end <= last <= end + 1 && last <= BUFSIZE
    requires end < last ==> c[base + end] == LF
    requires now == (stale && end != BUFSIZE)
    requires end == BUFSIZE && stale ==> c[base + BUFSIZE - 1] != LF
    ensures CutAhead(now, c, k, base + last, 0)
  {
  }

  lemma FailuresAreSpelled()
    ensures Spells(OPEN_FAILED, "file open failed\n")
    ensures Spells(READ_FAILED, "file read failed\n")
    ensures Spells(CLOSE_FAILED, "file close failed\n")
  {
  }

  /** `file open failed` and a newline. */
  const OPEN_FAILED: seq<byte> := [102, 105, 108, 101, 32, 111, 112, 101, 110, 32, 102, 97, 105, 108, 101, 100, 10]

  /** `file read failed` and a newline. */
  const READ_FAILED: seq<byte> := [102, 105, 108, 101, 32, 114, 101, 97, 100, 32, 102, 97, 105, 108, 101, 100, 10]

  /** `file close failed` and a newline. */
  const CLOSE_FAILED: seq<byte> :=
    [102, 105, 108, 101, 32, 99, 108, 111, 115, 101, 32, 102, 97, 105, 108, 101, 100, 10]

  /** The process can search `fname`: if it names anything, a text without NULs. */
  ghost predicate CanSearch(proc: Process, fname: seq<byte>)
    reads proc.files
  {
    && proc.files.Length == MAX_FD && |proc.img.inodes| > 0
    && (forall k :: 0 <= k < |proc.img.dentries| ==> |proc.img.dentries[k].name| == NAME)
    && NoNul(fname)
    && var d := Lookup(proc.img.dentries, fname);
       d.Some? ==>
         && d.value.ftype == REGULAR_FILE && WellFormed(proc.img, d.value.inode)
         && NoNul(Content(proc.img, d.value.inode))
  }

  ghost predicate CanOpen(proc: Process, fname: seq<byte>)
    requires CanSearch(proc, fname)
    reads proc.files
  {
    Lookup(proc.img.dentries, fname).Some? && FreeSlot(proc.files[..], MIN_FD) < MAX_FD
  }

  ghost function TextOf(proc: Process, fname: seq<byte>): seq<byte>
    requires CanSearch(proc, fname) && Lookup(proc.img.dentries, fname).Some?
    reads proc.files
  {
    Content(proc.img, Lookup(proc.img.dentries, fname).value.inode)
  }

  /** A read appends the next bytes of the file to the buffered ones. */
  lemma ReadLoads(was: seq<byte>, now: seq<byte>, c: seq<byte>, base: nat, last: nat, cnt: nat)
    requires |was| == BUFSIZE + 1 && Loaded(was, 0, last, c, base)
    requires base + last + cnt <= |c| && last + cnt <= BUFSIZE
    requires Holds(now, was, last, c[base + last..base + last + cnt])
    ensures Loaded(now, 0, last + cnt, c, base)
  {
    var x, y := now[0..last + cnt], c[base + 0..base + last + cnt];
    forall i | 0 <= i < last + cnt
      ensures x[i] == y[i]
    {
      if i < last {
        assert was[0..last][i] == c[base + 0..base + last][i];
      }
    }
  }

  /** One read of the outer loop: as much as the buffer has room for. */
  method Refill(proc: Process, fd: nat, data: array<byte>, last: nat,
                ghost c: seq<byte>, ghost pos: nat, ghost inode: nat)
    returns (cnt: int)
    requires proc.files.Length == MAX_FD && |proc.img.inodes| > 0 && MIN_FD <= fd < MAX_FD
    requires proc.files[fd] == FileDesc(true, pos, inode, Regular)
    requires WellFormed(proc.img, inode) && c == Content(proc.img, inode)
    requires data.Length == BUFSIZE + 1 && last < BUFSIZE && last <= pos && Loaded(data[..], 0, last, c, pos - last)
    modifies proc.files, data
    ensures cnt == Min(BUFSIZE - last, |c| - pos) >= 0
    ensures proc.files[fd] == FileDesc(true, pos + cnt, inode, Regular)
    ensures forall i :: 0 <= i < MAX_FD && i != fd ==> proc.files[i] == old(proc.files[i])
    ensures Loaded(data[..], 0, last + cnt, c, pos - last)
    ensures cnt == 0 ==> data[..] == old(data[..])
    ensures data[BUFSIZE] == old(data[BUFSIZE])
  {
    ghost var was, files := data[..], proc.files[..];
    cnt := proc.ReadFile(fd, data, last, BUFSIZE - last);
    ReadLoads(was, data[..], c, pos - last, last, cnt);
    forall i | 0 <= i < MAX_FD && i != fd
      ensures proc.files[i] == files[i]
    {
      assert proc.files[..][i] == files[i];
    }
    assert proc.files[..][fd] == proc.files[fd];
  }

  /** The outer loop, on an open descriptor: refill and search until a read returns
      nothing. */
  method SearchOpenFile(proc: Process, fd: nat, data: array<byte>, s: seq<byte>, fname: seq<byte>,
                        ghost c: seq<byte>, ghost k: nat, ghost left: Remaining)
    returns (ok: bool, out: seq<byte>)
    requires proc.files.Length == MAX_FD && |proc.img.inodes| > 0 && MIN_FD <= fd < MAX_FD
    requires proc.files[fd].inUse && proc.files[fd].kind.Regular? && proc.files[fd].filePos == 0
    requires WellFormed(proc.img, proc.files[fd].inode) && c == Content(proc.img, proc.files[fd].inode)
    requires data.Length == BUFSIZE + 1 && k == FirstCut(c, data[BUFSIZE] == LF)
    requires NoNul(c) && NoNul(s)
    requires KeptBySearch(left, c, k, HitOf(s)) && RightSoFar(left, fname, [], 0)
    modifies proc.files, data
    ensures ok && RightSoFar(left, fname, out, |c|)
    ensures forall i :: 0 <= i < MAX_FD && i != fd ==> proc.files[i] == old(proc.files[i])
    ensures proc.files[fd].inUse && !proc.files[fd].kind.Failing?
  {
    out := [];
    var last := 0;
    ghost var pos := 0;
    ghost var inode := proc.files[fd].inode;
    while true
      invariant 0 <= last <= pos <= |c| && last < BUFSIZE
      invariant proc.files[fd] == FileDesc(true, pos, inode, Regular)
      invariant forall i :: 0 <= i < MAX_FD && i != fd ==> proc.files[i] == old(proc.files[i])
      invariant Loaded(data[..], 0, last, c, pos - last)
      invariant NoNewline(c, pos - last, pos)
      invariant CutAhead(data[BUFSIZE] == LF, c, k, pos - last, last)
      invariant RightSoFar(left, fname, out, pos - last)
      decreases |c| - pos
    {
      var cnt := Refill(proc, fd, data, last, c, pos, inode);
      if cnt == -1 {
        out := out + READ_FAILED;
        return false, out;
      }
      ghost var base := pos - last;
      CutAfterRefill(data[BUFSIZE] == LF, c, k, base, last, cnt);
      pos := pos + cnt;
      last := last + cnt;
      last, out := SearchBuffer(data, last, cnt != 0, s, fname, out, c, k, base, left);
      if cnt == 0 {
        break;
      }
    }
    return true, out;
  }

  /**
   `do_one_file`: `data` is the buffer as the stack left it.  The output is that of a
   search of the whole lines for the pattern whenever `SearchIsExact` says so, which
   by `BufferedSearchIsExactIff` is whenever it can be.
   */
  method DoOneFile(proc: Process, data: array<byte>, s: seq<byte>, fname: seq<byte>) returns (r: int, out: seq<byte>)
    requires CanSearch(proc, fname) && NoNul(s)
    requires data.Length == 1025
    modifies proc.files, data
    ensures !old(CanOpen(proc, fname)) ==> r == -1 && out == OPEN_FAILED
    ensures old(CanOpen(proc, fname)) ==>
              var c := old(TextOf(proc, fname));
              var k := FirstCut(c, old(data[BUFSIZE] == LF));
              && r == 0
              && out == Render(fname, Hits(CutPieces(c, k), HitOf(s)))
              && (SearchIsExact(c, k, s) ==> out == Render(fname, Hits(Lines(c), ContainsOf(s))))
              && (NoLineEnd(fname) ==> ListsHits(out, fname, Hits(CutPieces(c, k), HitOf(s))))
    ensures forall i :: 0 <= i < MAX_FD ==> proc.files[i].inUse == old(proc.files[i].inUse)
  {
    ghost var files := proc.files[..];
    var fd := proc.OpenFile(fname);
    if fd == -1 {
      return -1, OPEN_FAILED;
    }
    OpenTakesLowestSlot(proc.img, files, fname);
    ghost var c := TextOf(proc, fname);
    ghost var k := FirstCut(c, data[BUFSIZE] == LF);
    ghost var left := RemainingOf(FinderOf(c, HitOf(s)), |c|, k);
    SearchIsKept(c, k, HitOf(s));
    StartRight(left, fname);
    assert proc.files[..][fd] == proc.files[fd];
    var ok;
    ok, out := SearchOpenFile(proc, fd, data, s, fname, c, k, left);
    if !ok {
      return -1, out;
    }
    EndRight(left, c, k, s, fname, out);
    var closed := proc.CloseFile(fd);
    if closed == -1 {
      return -1, out + CLOSE_FAILED;
    }
    return 0, out;
  }

  lemma StartRight(left: Remaining, fname: seq<byte>)
    ensures RightSoFar(left, fname, [], 0)
  {
    assert [] + left(0) == left(0) && [] == Render(fname, []);
  }

  lemma EndRight(left: Remaining, c: seq<byte>, k: nat, s: seq<byte>, fname: seq<byte>, out: seq<byte>)
    requires IsCut(c, k) && left == RemainingOf(FinderOf(c, HitOf(s)), |c|, k) && RightSoFar(left, fname, out, |c|)
    ensures out == Render(fname, Hits(CutPieces(c, k), HitOf(s)))
    ensures SearchIsExact(c, k, s) ==> out == Render(fname, Hits(Lines(c), ContainsOf(s)))
    ensures NoLineEnd(fname) ==> ListsHits(out, fname, Hits(CutPieces(c, k), HitOf(s)))
  {
    if NoLineEnd(fname) {
      OutputListsHits(fname, c, k, s);
    }
    var done :| done + left(|c|) == left(0) && out == Render(fname, done);
    EndsOfRemaining(FinderOf(c, HitOf(s)), left, c, k, HitOf(s));
    assert done + [] == done;
    BufferedSearchIsExactIff(c, k, s);
  }

  lemma EndsOfRemaining(found: Finder, left: Remaining, c: seq<byte>, k: nat, test: Test)
    requires IsCut(c, k) && found == FinderOf(c, test) && left == RemainingOf(found, |c|, k)
    ensures left(|c|) == [] && left(0) == Hits(CutPieces(c, k), test)
  {
    NothingFound(found, c, |c|, test);
    AllHits(c, k, test);
    if k == 0 {
      NothingFound(found, c, 0, test);
      assert [] + found(0, |c|) == found(0, |c|);
    }
  }

  lemma AllHits(c: seq<byte>, k: nat, test: Test)
    requires k <= |c|
    ensures Hits(CutPieces(c, k), test) == HitsIn(c, 0, k, test) + HitsIn(c, k, |c|, test)
  {
    JoinSlices(c, k, |c|);
    assert c[0..k] == c[..k];
    HitsAppend(Pieces(c[..k]), Pieces(c[k..]), test);
  }
}
