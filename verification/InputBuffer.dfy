/** Splitting user input into lines, through a fixed buffer that is shifted in place. */
module InputBuffer {
  import opened Collections
  import opened Wire

  const USERBUF_SIZE := 8191

  const NUL: byte := 0
  const NEWLINE: byte := 10

  // ---------------------------------------------------------------- lines of a stream

  /** Index of the first newline, or the length. */
  function FirstNewline(s: seq<byte>): (i: nat)
    ensures i <= |s| && (i < |s| ==> s[i] == NEWLINE)
    ensures forall k :: 0 <= k < i ==> s[k] != NEWLINE
  {
    if s == [] || s[0] == NEWLINE then 0 else 1 + FirstNewline(s[1..])
  }

  /** What follows the last newline. */
  ghost function Tail(s: seq<byte>): (t: seq<byte>)
    ensures |t| <= |s|
  {
    if s == [] || s[|s| - 1] == NEWLINE then [] else Tail(s[..|s| - 1]) + [s[|s| - 1]]
  }

  /** The finished lines of a stream, without their newlines. */
  ghost function Lines(s: seq<byte>): seq<seq<byte>> {
    if s == [] then []
    else
      var init := s[..|s| - 1];
      if s[|s| - 1] == NEWLINE then Lines(init) + [Tail(init)] else Lines(init)
  }

  lemma FirstNewlineIs(s: seq<byte>, i: nat)
    requires i <= |s| && (i < |s| ==> s[i] == NEWLINE) && forall k :: 0 <= k < i ==> s[k] != NEWLINE
    ensures FirstNewline(s) == i
  {
    assert !(FirstNewline(s) < i) && !(i < FirstNewline(s));
  }

  lemma {:induction false} NoNewline(s: seq<byte>)
    requires forall k :: 0 <= k < |s| ==> s[k] != NEWLINE
    ensures Lines(s) == [] && Tail(s) == s
  {
    if s == [] {
    } else {
      NoNewline(s[..|s| - 1]);
    }
  }

  lemma {:induction false} TailHasNone(s: seq<byte>)
    ensures Lines(Tail(s)) == [] && Tail(Tail(s)) == Tail(s)
  {
    if s == [] {
    } else if s[|s| - 1] != NEWLINE {
      TailHasNone(s[..|s| - 1]);
      assert Tail(s)[..|Tail(s)| - 1] == Tail(s[..|s| - 1]);
    }
  }

  /** Only the unfinished tail matters for what comes next. */
  lemma {:induction false} LinesConcat(s: seq<byte>, t: seq<byte>)
    ensures Lines(s + t) == Lines(s) + Lines(Tail(s) + t)
    ensures Tail(s + t) == Tail(Tail(s) + t)
    decreases |t|
  {
    if t == [] {
      assert s + t == s && Tail(s) + t == Tail(s);
      TailHasNone(s);
    } else {
      var init := t[..|t| - 1];
      LinesConcat(s, init);
      assert (s + t)[..|s + t| - 1] == s + init;
      assert (Tail(s) + t)[..|Tail(s) + t| - 1] == Tail(s) + init;
    }
  }

  lemma OneLine(a: seq<byte>)
    requires forall k :: 0 <= k < |a| ==> a[k] != NEWLINE
    ensures Lines(a + [NEWLINE]) == [a] && Tail(a + [NEWLINE]) == []
  {
    assert (a + [NEWLINE])[..|a|] == a;
    NoNewline(a);
  }

  /** The first newline of `s` is at `i`. */
  ghost predicate IsFirst(s: seq<byte>, i: nat) {
    i < |s| && s[i] == NEWLINE && forall k :: 0 <= k < i ==> s[k] != NEWLINE
  }

  lemma LineThen(a: seq<byte>, rest: seq<byte>)
    requires forall k :: 0 <= k < |a| ==> a[k] != NEWLINE
    ensures Lines(a + [NEWLINE] + rest) == [a] + Lines(rest) && Tail(a + [NEWLINE] + rest) == Tail(rest)
  {
    var head := a + [NEWLINE];
    OneLine(a);
    LinesConcat(head, rest);
    assert Tail(head) + rest == rest;
  }

  /** Cutting off the first line. */
  lemma LinesCut(s: seq<byte>, i: nat)
    requires IsFirst(s, i)
    ensures Lines(s) == [s[..i]] + Lines(s[i + 1..]) && Tail(s) == Tail(s[i + 1..])
  {
    LineThen(s[..i], s[i + 1..]);
    assert s == s[..i] + [NEWLINE] + s[i + 1..];
  }

  /** Each line followed by a newline character. */
  ghost function Ended(lines: seq<seq<byte>>): seq<byte> {
    if lines == [] then [] else Ended(lines[..|lines| - 1]) + lines[|lines| - 1] + [10]
  }

  ghost predicate OneLineOnly(s: seq<byte>) { forall k :: 0 <= k < |s| ==> s[k] != 10 }

  lemma EndedNext(lines: seq<seq<byte>>, line: seq<byte>)
    ensures Ended(lines + [line]) == Ended(lines) + line + [10]
  {
    assert (lines + [line])[..|lines|] == lines;
  }

  lemma Closed(init: seq<byte>, ended: seq<byte>, tail: seq<byte>, s: seq<byte>)
    requires s != [] && init == s[..|s| - 1] && s[|s| - 1] == 10 && ended + tail == init
    ensures (ended + tail + [10]) + [] == s
  {
  }

  lemma Prolonged(ended: seq<byte>, tail: seq<byte>, s: seq<byte>)
    requires s != [] && ended + tail == s[..|s| - 1]
    ensures ended + (tail + [s[|s| - 1]]) == s
  {
  }

  /** The stream is its lines, each with a newline, and the tail; none of them holds another newline. */
  lemma {:induction false} LinesRebuild(s: seq<byte>)
    ensures Ended(Lines(s)) + Tail(s) == s
    ensures OneLineOnly(Tail(s)) && forall i :: 0 <= i < |Lines(s)| ==> OneLineOnly(Lines(s)[i])
  {
    if s == [] {
    } else {
      var init := s[..|s| - 1];
      LinesRebuild(init);
      if s[|s| - 1] == NEWLINE {
        EndedNext(Lines(init), Tail(init));
        Closed(init, Ended(Lines(init)), Tail(init), s);
      } else {
        Prolonged(Ended(Lines(s)), Tail(init), s);
      }
    }
  }

  ghost predicate NulFree(s: seq<byte>) { forall k :: 0 <= k < |s| ==> s[k] != 0 }

  // ---------------------------------------------------------------- the buffer as a value

  datatype Buffer = Buffer(bytes: seq<byte>, cur: nat)

  predicate Shaped(b: Buffer) { b.cur < |b.bytes| && b.bytes[|b.bytes| - 1] == NUL }

  /** The pending text. */
  function Text(b: Buffer): (s: seq<byte>)
    requires Shaped(b)
    ensures |s| == b.cur
  {
    b.bytes[..b.cur]
  }

  /** The text holds no NUL; the last byte of the buffer is never written and stays zero. */
  ghost predicate Live(b: Buffer) { Shaped(b) && NulFree(Text(b)) }

  /** Nothing but zeros stands at or behind the end of the text. */
  ghost predicate Clean(b: Buffer)
    requires Shaped(b)
  {
    forall k :: b.cur <= k < |b.bytes| ==> b.bytes[k] == NUL
  }

  /** Index of the first newline or NUL, or the length. */
  function FirstStop(s: seq<byte>): (r: nat)
    ensures r <= |s| && (r < |s| ==> s[r] == NEWLINE || s[r] == NUL)
    ensures forall k :: 0 <= k < r ==> s[k] != NEWLINE && s[k] != NUL
  {
    if s == [] || s[0] == NEWLINE || s[0] == NUL then 0 else 1 + FirstStop(s[1..])
  }

  /** Where `strchr`, started at `i`, stops. */
  function Search(s: seq<byte>, i: nat): (r: nat)
    requires i <= |s|
    ensures i <= r <= |s| && (r < |s| ==> s[r] == NEWLINE || s[r] == NUL)
    ensures forall k :: i <= k < r ==> s[k] != NEWLINE && s[k] != NUL
  {
    var t := s[i..];
    assert forall k :: i <= k < |s| ==> s[k] == t[k - i];
    i + FirstStop(t)
  }

  /** From the end of the text on, a zero comes before any newline. */
  predicate Shielded(b: Buffer)
    requires Shaped(b)
  {
    var q := Search(b.bytes, b.cur);
    q < |b.bytes| && b.bytes[q] == NUL
  }

  /** `read` puts bytes behind the pending text. */
  function Stored(b: Buffer, input: seq<byte>): (r: Buffer)
    requires Shaped(b) && b.cur + |input| < |b.bytes|
    ensures Shaped(r) && |r.bytes| == |b.bytes| && Text(r) == Text(b) + input
  {
    Buffer(b.bytes[..b.cur] + input + b.bytes[b.cur + |input|..], b.cur + |input|)
  }

  /** The byte at `k` after cutting at `i` and moving the rest, up to the end of the buffer, to the front. */
  function Cut(s: seq<byte>, i: nat, k: nat): byte
    requires i < |s| && k < |s|
  {
    if k + i + 1 < |s| then s[k + i + 1] else if k == i then NUL else s[k]
  }

  /** Cut a line off the text: the end of the buffer keeps its bytes. */
  function CutAt(b: Buffer, i: nat): (r: Buffer)
    requires Shaped(b) && i < b.cur
    ensures |r.bytes| == |b.bytes| && r.cur == b.cur - i - 1
    ensures forall k :: 0 <= k < |b.bytes| ==> r.bytes[k] == Cut(b.bytes, i, k)
  {
    Buffer(seq(|b.bytes|, k requires 0 <= k < |b.bytes| => Cut(b.bytes, i, k)), b.cur - i - 1)
  }

  /**
   * Cutting the first `i` of `len` bytes leaves only zeros behind the rest: the bytes the move does not
   * reach lie past the text, or are just the newline that has been overwritten.
   */
  predicate Room(size: int, len: int, i: int) {
    len + i <= size || (i + 1 == len && len + i == size + 1)
  }

  /** There is room for every line of the text in turn. */
  ghost predicate Fits(size: int, s: seq<byte>)
    decreases |s|
  {
    var i := FirstNewline(s);
    i < |s| ==> Room(size, |s|, i) && Fits(size, s[i + 1..])
  }

  lemma FitsCut(size: int, s: seq<byte>, i: nat)
    requires IsFirst(s, i)
    ensures Fits(size, s) == (Room(size, |s|, i) && Fits(size, s[i + 1..]))
  {
    FirstNewlineIs(s, i);
  }

  /** Half a buffer of pending text always fits. */
  lemma {:induction false} HalfFits(size: int, s: seq<byte>)
    requires 2 * |s| <= size + 1
    ensures Fits(size, s)
    decreases |s|
  {
    var i := FirstNewline(s);
    if i == |s| {
    } else {
      HalfFits(size, s[i + 1..]);
    }
  }

  // ---------------------------------------------------------------- searching and shifting

  lemma SearchIs(s: seq<byte>, i: nat, q: nat)
    requires i <= q < |s| && (s[q] == NEWLINE || s[q] == NUL)
    requires forall k :: i <= k < q ==> s[k] != NEWLINE && s[k] != NUL
    ensures Search(s, i) == q
  {
    var r := Search(s, i);
    assert !(r < q) && !(q < r);
  }

  lemma SearchEnds(s: seq<byte>, i: nat)
    requires i < |s| && s[|s| - 1] == NUL
    ensures Search(s, i) < |s|
  {
    assert !(|s| - 1 < Search(s, i));
  }

  /** The search finds the first newline of the text, or runs on behind it. */
  lemma SearchFinds(b: Buffer)
    requires Live(b)
    ensures var i := FirstNewline(Text(b));
      Search(b.bytes, 0) == (if i < b.cur then i else Search(b.bytes, b.cur)) < |b.bytes|
  {
    var i := FirstNewline(Text(b));
    if i < b.cur {
      assert Text(b)[i] == b.bytes[i];
      SearchIs(b.bytes, 0, i);
    } else {
      SearchEnds(b.bytes, b.cur);
      SearchIs(b.bytes, 0, Search(b.bytes, b.cur));
    }
  }

  lemma CleanIsShielded(b: Buffer)
    requires Shaped(b) && Clean(b)
    ensures Shielded(b)
  {
    SearchIs(b.bytes, b.cur, b.cur);
  }

  lemma StoredLive(b: Buffer, input: seq<byte>)
    requires Live(b) && NulFree(input) && b.cur + |input| < |b.bytes|
    ensures Live(Stored(b, input)) && (Clean(b) ==> Clean(Stored(b, input)))
  {
  }

  /** One shift keeps the rest of the text. */
  lemma CutLive(b: Buffer, i: nat)
    requires Live(b) && i < b.cur
    ensures Live(CutAt(b, i)) && Text(CutAt(b, i)) == Text(b)[i + 1..]
  {
    var r := CutAt(b, i);
    assert r.bytes[|b.bytes| - 1] == Cut(b.bytes, i, |b.bytes| - 1);
    assert Text(r) == Text(b)[i + 1..];
  }

  /** It also keeps what stands behind the text up to the first zero or newline. */
  lemma CutShielded(b: Buffer, i: nat)
    requires Live(b) && i < b.cur && Shaped(CutAt(b, i))
    ensures Shielded(CutAt(b, i)) == Shielded(b)
  {
    SearchEnds(b.bytes, b.cur);
    var q, r := Search(b.bytes, b.cur), CutAt(b, i);
    forall k | r.cur <= k <= q - i - 1 ensures r.bytes[k] == b.bytes[k + i + 1] {
      assert r.bytes[k] == Cut(b.bytes, i, k);
    }
    SearchIs(r.bytes, r.cur, q - i - 1);
  }

  /** Without room some byte of the text stays behind. */
  lemma LeftOver(b: Buffer, size: int, i: nat)
    requires Live(b) && |b.bytes| == size + 1 && i < b.cur && !Room(size, b.cur, i) && Shaped(CutAt(b, i))
    ensures !Clean(CutAt(b, i))
  {
    var k := if i + 1 == b.cur then b.cur - 2 else b.cur - 1;
    assert CutAt(b, i).bytes[k] == Cut(b.bytes, i, k) == b.bytes[k] == Text(b)[k];
  }

  lemma RoomKeepsZeros(b: Buffer, size: int, i: nat)
    requires Live(b) && Clean(b) && |b.bytes| == size + 1 && i < b.cur && Room(size, b.cur, i) && Shaped(CutAt(b, i))
    ensures Clean(CutAt(b, i))
  {
    var r := CutAt(b, i);
    forall k | r.cur <= k < |r.bytes| ensures r.bytes[k] == NUL { assert r.bytes[k] == Cut(b.bytes, i, k); }
  }

  lemma ZerosWereThere(b: Buffer, i: nat)
    requires Live(b) && i < b.cur && Shaped(CutAt(b, i)) && Clean(CutAt(b, i))
    ensures Clean(b)
  {
    var r := CutAt(b, i);
    forall k | b.cur <= k < |b.bytes| ensures b.bytes[k] == NUL {
      assert r.bytes[k - i - 1] == Cut(b.bytes, i, k - i - 1);
    }
  }

  /** One shift keeps the zeros exactly when there is room. */
  lemma CutClean(b: Buffer, size: int, i: nat)
    requires Live(b) && |b.bytes| == size + 1 && i < b.cur && Shaped(CutAt(b, i))
    ensures Clean(CutAt(b, i)) == (Clean(b) && Room(size, b.cur, i))
  {
    if !Room(size, b.cur, i) {
      LeftOver(b, size, i);
    } else if Clean(b) {
      RoomKeepsZeros(b, size, i);
    } else if Clean(CutAt(b, i)) {
      ZerosWereThere(b, i);
    }
  }

  // ---------------------------------------------------------------- handing out every line

  /** Shift until the text has no newline left. */
  ghost function Drained(b: Buffer): Buffer
    requires Live(b)
    decreases b.cur
  {
    var i := FirstNewline(Text(b));
    if i == b.cur then b
    else
      CutLive(b, i);
      Drained(CutAt(b, i))
  }

  lemma DrainedNext(b: Buffer) returns (i: nat, r: Buffer)
    requires Live(b) && FirstNewline(Text(b)) < b.cur
    ensures i == FirstNewline(Text(b)) && IsFirst(Text(b), i)
    ensures r == CutAt(b, i) && Live(r) && Text(r) == Text(b)[i + 1..] && Drained(r) == Drained(b)
  {
    i := FirstNewline(Text(b));
    CutLive(b, i);
    r := CutAt(b, i);
  }

  /** What is left is the tail of the text. */
  lemma {:induction false} DrainedIs(b: Buffer)
    requires Live(b)
    ensures var r := Drained(b); |r.bytes| == |b.bytes| && Live(r) && Text(r) == Tail(Text(b))
    decreases b.cur
  {
    if FirstNewline(Text(b)) == b.cur {
      NoNewline(Text(b));
    } else {
      var i, r := DrainedNext(b);
      LinesCut(Text(b), i);
      DrainedIs(r);
    }
  }

  /** It is shielded exactly when the whole text was. */
  lemma {:induction false} DrainedShielded(b: Buffer)
    requires Live(b)
    ensures Shaped(Drained(b)) && Shielded(Drained(b)) == Shielded(b)
    decreases b.cur
  {
    if FirstNewline(Text(b)) == b.cur {
    } else {
      var i, r := DrainedNext(b);
      CutShielded(b, i);
      DrainedShielded(r);
    }
  }

  /** Only zeros stand behind it exactly when they stood behind the text and there was room for every line. */
  lemma {:induction false} DrainedClean(b: Buffer, size: int)
    requires Live(b) && |b.bytes| == size + 1
    ensures Shaped(Drained(b)) && Clean(Drained(b)) == (Clean(b) && Fits(size, Text(b)))
    decreases b.cur
  {
    if FirstNewline(Text(b)) == b.cur {
    } else {
      var i, r := DrainedNext(b);
      CutClean(b, size, i);
      FitsCut(size, Text(b), i);
      DrainedClean(r, size);
    }
  }

  // ---------------------------------------------------------------- any number of reads

  /** No read is refused, too long for the buffer, or brings a NUL. */
  ghost predicate Acceptable(size: nat, parts: seq<seq<byte>>) {
    parts == [] ||
    var init, last := parts[..|parts| - 1], parts[|parts| - 1];
    Acceptable(size, init) && NulFree(last) && |Tail(Join(init))| < size - 1 && |Tail(Join(init))| + |last| <= size
  }

  /** The buffer after all reads. */
  ghost function After(size: nat, parts: seq<seq<byte>>): (r: Buffer)
    requires Acceptable(size, parts)
    ensures |r.bytes| == size + 1 && Live(r) && Text(r) == Tail(Join(parts))
    decreases |parts|
  {
    if parts == [] then Buffer(seq(size + 1, _ => NUL), 0)
    else
      var init, last := parts[..|parts| - 1], parts[|parts| - 1];
      StoredLive(After(size, init), last);
      DrainedIs(Stored(After(size, init), last));
      LinesConcat(Join(init), last);
      Drained(Stored(After(size, init), last))
  }

  /** No search meets a newline left behind the text. */
  ghost predicate Undisturbed(size: nat, parts: seq<seq<byte>>)
    requires Acceptable(size, parts)
  {
    parts == [] ||
    var init, last := parts[..|parts| - 1], parts[|parts| - 1];
    Undisturbed(size, init) && Shielded(Stored(After(size, init), last))
  }

  /** Every time there is room for every line of the pending text. */
  ghost predicate AllFit(size: nat, parts: seq<seq<byte>>) {
    parts == [] ||
    var init, last := parts[..|parts| - 1], parts[|parts| - 1];
    AllFit(size, init) && Fits(size, Tail(Join(init)) + last)
  }

  lemma FittingRead(a: Buffer, size: int, input: seq<byte>)
    requires Live(a) && Clean(a) && |a.bytes| == size + 1 && NulFree(input) && a.cur + |input| <= size
    requires Fits(size, Text(a) + input)
    ensures Live(Stored(a, input)) && Shielded(Stored(a, input))
    ensures Shaped(Drained(Stored(a, input))) && Clean(Drained(Stored(a, input)))
  {
    StoredLive(a, input);
    CleanIsShielded(Stored(a, input));
    DrainedClean(Stored(a, input), size);
  }

  /** Then the zeros behind the text survive, and nothing is left that could disturb. */
  lemma {:induction false} FittingIsUndisturbed(size: nat, parts: seq<seq<byte>>)
    requires Acceptable(size, parts) && AllFit(size, parts)
    ensures Undisturbed(size, parts) && Clean(After(size, parts))
    decreases |parts|
  {
    if parts == [] {
    } else {
      var init, last := parts[..|parts| - 1], parts[|parts| - 1];
      FittingIsUndisturbed(size, init);
      FittingRead(After(size, init), size, last);
    }
  }

  /** At most half a buffer is pending at any time. */
  ghost predicate Halves(size: nat, parts: seq<seq<byte>>) {
    parts == [] ||
    var init, last := parts[..|parts| - 1], parts[|parts| - 1];
    Halves(size, init) && NulFree(last) && 2 * (|Tail(Join(init))| + |last|) <= size + 1
  }

  /** Half a buffer is room enough. */
  lemma {:induction false} HalvesFit(size: nat, parts: seq<seq<byte>>)
    requires 4 <= size && Halves(size, parts)
    ensures Acceptable(size, parts) && AllFit(size, parts)
    ensures 2 * |Tail(Join(parts))| <= size + 1
    decreases |parts|
  {
    if parts == [] {
    } else {
      var init, last := parts[..|parts| - 1], parts[|parts| - 1];
      HalvesFit(size, init);
      HalfFits(size, Tail(Join(init)) + last);
      LinesConcat(Join(init), last);
    }
  }

  /** One more read. */
  lemma OneRead(size: nat, seen: seq<seq<byte>>, input: seq<byte>, all: seq<seq<byte>>) returns (b: Buffer)
    requires all == seen + [input] && Acceptable(size, all)
    ensures Acceptable(size, seen) && NulFree(input) && After(size, seen).cur + |input| <= size
    ensures After(size, seen).cur < size - 1
    ensures b == Stored(After(size, seen), input) && Live(b) && After(size, all) == Drained(b)
    ensures Undisturbed(size, all) == (Undisturbed(size, seen) && Shielded(b))
    ensures Lines(Join(all)) == Lines(Join(seen)) + Lines(Text(After(size, seen)) + input)
  {
    assert all[..|all| - 1] == seen;
    b := Stored(After(size, seen), input);
    StoredLive(After(size, seen), input);
    LinesConcat(Join(seen), input);
  }

  lemma LastApart(parts: seq<seq<byte>>, init: seq<seq<byte>>, last: seq<byte>)
    requires parts != [] && init == parts[..|parts| - 1] && last == parts[|parts| - 1]
    ensures parts == init + [last]
  {
  }

  // ---------------------------------------------------------------- how a wrong line comes about

  /** Once `input` has been read, the search meets a newline that was left behind. */
  ghost predicate Spoils(b: Buffer, input: seq<byte>)
    requires Shaped(b)
  {
    NulFree(input) && b.cur + |input| < |b.bytes| && !Shielded(Stored(b, input))
  }

  lemma NewlineMet(b: Buffer, input: seq<byte>) returns (k: nat)
    requires Live(b) && Spoils(b, input)
    ensures b.cur <= k < |b.bytes| && b.bytes[k] == NEWLINE
  {
    var r := Stored(b, input);
    SearchEnds(r.bytes, r.cur);
    k := Search(r.bytes, r.cur);
    assert r.bytes[k] == b.bytes[k];
  }

  function Letters(letter: byte, n: nat): (s: seq<byte>)
    ensures |s| == n && forall k :: 0 <= k < n ==> s[k] == letter
  {
    seq(n, _ => letter)
  }

  lemma NewlineReached(b: Buffer, k: nat) returns (input: seq<byte>)
    requires Live(b) && b.cur <= k < |b.bytes| && b.bytes[k] == NEWLINE
    ensures Spoils(b, input)
  {
    input := Letters(120, k - b.cur);
    var r := Stored(b, input);
    assert r.bytes[k] == b.bytes[k];
    SearchIs(r.bytes, k, k);
  }

  /** Some next input leads to a wrong line exactly when a newline stands at or behind the end of the text. */
  lemma WrongLineExactly(b: Buffer)
    requires Live(b)
    ensures (exists input :: Spoils(b, input)) <==> exists k :: b.cur <= k < |b.bytes| && b.bytes[k] == NEWLINE
  {
    if input :| Spoils(b, input) {
      var k := NewlineMet(b, input);
    }
    if k :| b.cur <= k < |b.bytes| && b.bytes[k] == NEWLINE {
      var input := NewlineReached(b, k);
    }
  }

  /** A long line and a short one that fill the whole buffer. */
  function TwoLines(size: nat): (s: seq<byte>)
    requires 5 <= size
    ensures |s| == size
  {
    Letters(97, size - 3) + [NEWLINE, 98, NEWLINE]
  }

  /** Without its two lines the text is empty, but a letter and a newline stay behind, three bytes before the end. */
  lemma TwoLinesDrained(size: nat, b: Buffer) returns (r: Buffer)
    requires 5 <= size && Live(b) && |b.bytes| == size + 1 && Text(b) == TwoLines(size)
    ensures r == Drained(b) && |r.bytes| == size + 1 && Shaped(r)
    ensures r.cur == 0 && r.bytes[size - 4] == 98 && r.bytes[size - 3] == NEWLINE
  {
    FirstNewlineIs(Text(b), size - 3);
    var i1, r1 := DrainedNext(b);
    assert r1.bytes[size - 2] == Cut(b.bytes, size - 3, size - 2) == Text(b)[size - 2] == 98;
    assert r1.bytes[size - 1] == Cut(b.bytes, size - 3, size - 1) == Text(b)[size - 1] == NEWLINE;
    assert Text(r1) == [98, NEWLINE];
    FirstNewlineIs(Text(r1), 1);
    var i2, r2 := DrainedNext(r1);
    assert r2.bytes[size - 4] == Cut(r1.bytes, 1, size - 4) && r2.bytes[size - 3] == Cut(r1.bytes, 1, size - 3);
    r := r2;
  }

  lemma Unshielded(r: Buffer, input: seq<byte>, t: Buffer)
    requires Shaped(r) && r.cur == 0 && |input| + 1 < |r.bytes| && t == Stored(r, input)
    requires r.bytes[|input|] != NUL && r.bytes[|input|] != NEWLINE && r.bytes[|input| + 1] == NEWLINE
    ensures !Shielded(t)
  {
    var n := |input|;
    assert t.bytes[n] == r.bytes[n] && t.bytes[n + 1] == r.bytes[n + 1];
    SearchIs(t.bytes, n, n + 1);
  }

  lemma JoinOne(parts: seq<seq<byte>>, first: seq<byte>)
    requires parts == [first]
    ensures parts[..0] == [] && Join(parts) == first && parts == [] + [first]
  {
    assert [] + first == first;
  }

  lemma OnceAcceptable(size: nat, nothing: seq<seq<byte>>, once: seq<seq<byte>>, first: seq<byte>)
    requires once == [first] && nothing == [] && 2 <= size && NulFree(first) && |first| <= size
    ensures Acceptable(size, nothing) && Acceptable(size, once) && once == nothing + [first]
    ensures After(size, nothing).cur == 0 && Clean(After(size, nothing)) && Undisturbed(size, nothing)
  {
    var init, last := once[..|once| - 1], once[|once| - 1];
    assert init == nothing && last == first && Join(init) == [] && Tail(Join(init)) == [];
    assert Acceptable(size, init);
    assert Acceptable(size, once);
  }

  lemma FullRead(size: nat, once: seq<seq<byte>>) returns (b: Buffer)
    requires 5 <= size && once == [TwoLines(size)]
    ensures Acceptable(size, once) && Tail(Join(once)) == []
    ensures Live(b) && |b.bytes| == size + 1 && Text(b) == TwoLines(size) && Clean(b) && After(size, once) == Drained(b)
    ensures Undisturbed(size, once) == Shielded(b)
  {
    var first := TwoLines(size);
    assert first[size - 1] == NEWLINE;
    JoinOne(once, first);
    OnceAcceptable(size, [], once, first);
    b := OneRead(size, [], first, once);
    var empty := After(size, []);
    StoredLive(empty, first);
    assert Text(empty) + first == first;
  }

  /** `once` and `twice` are the reads so far. */
  lemma TwoReads(size: nat, second: seq<byte>, once: seq<seq<byte>>, twice: seq<seq<byte>>)
    requires 5 <= size && once == [TwoLines(size)] && twice == once + [second]
    requires NulFree(second) && |second| == size - 4
    ensures Acceptable(size, once) && Undisturbed(size, once) && Tail(Join(once)) == []
    ensures Acceptable(size, twice) && !Undisturbed(size, twice)
    ensures Lines(Join(twice)) == Lines(Join(once)) + Lines(second)
  {
    var b := FullRead(size, once);
    var r := TwoLinesDrained(size, b);
    CleanIsShielded(b);
    assert twice[..1] == once;
    var t := OneRead(size, once, second, twice);
    Unshielded(r, second, t);
    assert [] + second == second;
  }

  /**
   * In a buffer of any size: two lines that fill it, read at once, leave a newline behind, and a line of
   * letters that was never finished is then taken for one.
   */
  lemma TooMuchAtOnce(size: nat)
    requires 5 <= size
    ensures var once, twice := [TwoLines(size)], [TwoLines(size), Letters(120, size - 4)];
      && Acceptable(size, once) && Undisturbed(size, once)
      && Acceptable(size, twice) && !Undisturbed(size, twice)
      && Lines(Join(twice)) == Lines(Join(once))
  {
    var first, second := TwoLines(size), Letters(120, size - 4);
    assert [first, second] == [first] + [second];
    TwoReads(size, second, [first], [first, second]);
    NoNewline(second);
  }

  /** In the program's own buffer. */
  lemma TooMuchForTheProgram()
    ensures var once, twice := [TwoLines(USERBUF_SIZE)], [TwoLines(USERBUF_SIZE), Letters(120, 8187)];
      && Acceptable(USERBUF_SIZE, once) && Undisturbed(USERBUF_SIZE, once)
      && Acceptable(USERBUF_SIZE, twice) && !Undisturbed(USERBUF_SIZE, twice)
      && Lines(Join(twice)) == Lines(Join(once))
  {
    TooMuchAtOnce(USERBUF_SIZE);
  }

  // ---------------------------------------------------------------- the program's loops

  /** A newline found inside the text ends its first line. */
  lemma LineFound(b: Buffer, i: nat)
    requires Live(b) && i == Search(b.bytes, 0) && i < b.cur && b.bytes[i] == NEWLINE
    ensures Live(CutAt(b, i)) && Drained(CutAt(b, i)) == Drained(b)
    ensures Lines(Text(b)) == [b.bytes[..i]] + Lines(Text(CutAt(b, i)))
  {
    FirstNewlineIs(Text(b), i);
    var _, r := DrainedNext(b);
    LinesCut(Text(b), i);
    assert Text(b)[..i] == b.bytes[..i];
  }

  /** Otherwise the text has no line left, and what the search has met stands behind it. */
  lemma NoLineFound(b: Buffer, i: nat)
    requires Live(b) && i == Search(b.bytes, 0) < |b.bytes| && (b.bytes[i] != NEWLINE || b.cur <= i)
    ensures Drained(b) == b && Lines(Text(b)) == []
    ensures Shielded(b) == (b.bytes[i] != NEWLINE)
  {
    SearchFinds(b);
    NoNewline(Text(b));
  }

  lemma MoveOver(lines: seq<seq<byte>>, line: seq<byte>, more: seq<seq<byte>>)
    ensures lines + [line] + more == lines + ([line] + more)
  {
  }

  class UserBuf {
    const size: nat
    const buf: array<byte>
    var cur: nat

    ghost function View(): Buffer
      reads this, buf
    {
      Buffer(buf[..], cur)
    }

    ghost predicate Valid()
      reads this, buf
    {
      2 <= size && buf.Length == size + 1 && Live(View())
    }

    constructor (size: nat)
      requires 2 <= size
      ensures Valid() && this.size == size && View() == After(size, []) && fresh(buf)
    {
      this.size := size;
      cur := 0;
      buf := new byte[size + 1](k => NUL);
      new;
      assert buf[..] == seq(size + 1, _ => NUL);
    }

    method Store(input: seq<byte>)
      requires Valid() && cur + |input| <= size && NulFree(input)
      modifies this, buf
      ensures Valid() && View() == Stored(old(View()), input)
    {
      ghost var b := View();
      StoredLive(b, input);
      for k := 0 to |input|
        invariant forall j {:trigger buf[j]} :: 0 <= j <= size ==>
                    buf[j] == if cur <= j < cur + k then input[j - cur] else b.bytes[j]
        modifies buf
      {
        buf[cur + k] := input[k];
      }
      assert buf[..] == Stored(b, input).bytes;
      cur := cur + |input|;
    }

    /** Cut a line off at `i` and shift the rest to the front. */
    method Shift(i: nat) returns (line: seq<byte>)
      requires Shaped(View()) && i < cur && buf.Length == size + 1
      modifies this, buf
      ensures line == old(buf[..i]) && View() == CutAt(old(View()), i)
    {
      ghost var before := buf[..];
      buf[i] := NUL;
      line := buf[..i];
      var k := 0;
      while k < size - i
        invariant 0 <= k <= size - i
        invariant forall j {:trigger buf[j]} :: 0 <= j < k ==> buf[j] == before[j + i + 1]
        invariant forall j {:trigger buf[j]} :: k <= j <= size ==> buf[j] == if j == i then NUL else before[j]
        modifies buf
      {
        buf[k] := buf[k + i + 1];
        k := k + 1;
      }
      cur := cur - (i + 1);
      assert forall j :: 0 <= j <= size ==> buf[j] == Cut(before, i, j);
    }

    method Strchr() returns (i: nat)
      requires Valid()
      ensures i == Search(buf[..], 0) < buf.Length
    {
      i := 0;
      SearchEnds(buf[..], 0);
      while buf[i] != NEWLINE && buf[i] != NUL
        invariant 0 <= i < buf.Length && Search(buf[..], i) == Search(buf[..], 0)
        decreases buf.Length - i
      {
        i := i + 1;
      }
    }

    /** The next finished line, if any; `spoiled` when the search meets a newline behind the text instead. */
    method NextLine() returns (line: Option<seq<byte>>, spoiled: bool)
      requires Valid()
      modifies this, buf
      ensures Valid() && Drained(View()) == Drained(old(View()))
      ensures line.Some? ==> cur < old(cur) && Lines(Text(old(View()))) == [line.value] + Lines(Text(View()))
      ensures line.None? ==> Lines(Text(old(View()))) == [] && Drained(View()) == View() && spoiled == !Shielded(View())
    {
      ghost var b := View();
      var i := Strchr();
      if buf[i] != NEWLINE || i >= cur {
        NoLineFound(b, i);
        return None, buf[i] == NEWLINE;
      }
      LineFound(b, i);
      var l := Shift(i);
      return Some(l), false;
    }

    /** Hand out every finished line. */
    method Drain() returns (lines: seq<seq<byte>>, spoiled: bool)
      requires Valid()
      modifies this, buf
      ensures Valid() && View() == Drained(old(View()))
      ensures lines == Lines(Text(old(View()))) && spoiled == !Shielded(old(View()))
    {
      ghost var b := View();
      DrainedShielded(b);
      lines := [];
      while true
        invariant Valid() && Drained(View()) == Drained(b) && lines + Lines(Text(View())) == Lines(Text(b))
        decreases cur
      {
        var line;
        line, spoiled := NextLine();
        if line.None? {
          return;
        }
        MoveOver(lines, line.value, Lines(Text(View())));
        lines := lines + [line.value];
      }
    }

    /**
     * `process_user_input` for one read: refused when the buffer is nearly full; otherwise the lines and the
     * tail of the text, unless a newline left behind it is taken for the end of another line.
     */
    method ProcessUserInput(input: seq<byte>) returns (accepted: bool, lines: seq<seq<byte>>, spoiled: bool)
      requires Valid() && NulFree(input) && cur + |input| <= size
      modifies this, buf
      ensures Valid() && accepted == (old(cur) < size - 1)
      ensures !accepted ==> View() == old(View()) && lines == [] && !spoiled
      ensures accepted ==>
        var b := Stored(old(View()), input);
        && Live(b) && View() == Drained(b) && spoiled == !Shielded(b)
        && lines == Lines(Text(old(View())) + input) && Text(View()) == Tail(Text(old(View())) + input)
    {
      if cur >= size - 1 {
        return false, [], false;
      }
      Store(input);
      DrainedIs(View());
      lines, spoiled := Drain();
      accepted := true;
    }

    method ReadNext(ghost seen: seq<seq<byte>>, input: seq<byte>, ghost all: seq<seq<byte>>)
      returns (lines: seq<seq<byte>>, spoiled: bool)
      requires Valid() && all == seen + [input]
      requires Acceptable(size, seen) && Acceptable(size, all) && View() == After(size, seen)
      modifies this, buf
      ensures Valid() && View() == After(size, all)
      ensures Undisturbed(size, all) == (Undisturbed(size, seen) && !spoiled)
      ensures Lines(Join(all)) == Lines(Join(seen)) + lines
    {
      ghost var b := OneRead(size, seen, input, all);
      var accepted;
      accepted, lines, spoiled := ProcessUserInput(input);
    }

    /**
     * Any number of reads: exactly the lines of the stream, as long as no search meets a newline left behind
     * the text; `ok` tells whether that was so.
     */
    method ProcessAll(parts: seq<seq<byte>>) returns (lines: seq<seq<byte>>, ok: bool)
      requires Valid() && View() == After(size, []) && Acceptable(size, parts)
      modifies this, buf
      decreases |parts|
      ensures Valid() && ok == Undisturbed(size, parts)
      ensures ok ==> lines == Lines(Join(parts)) && Text(View()) == Tail(Join(parts)) && View() == After(size, parts)
    {
      if parts == [] {
        return [], true;
      }
      var init, last := parts[..|parts| - 1], parts[|parts| - 1];
      LastApart(parts, init, last);
      lines, ok := ProcessAll(init);
      if ok {
        var more, spoiled := ReadNext(init, last, parts);
        lines, ok := lines + more, !spoiled;
      }
    }
  }
}
