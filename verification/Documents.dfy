/** Documents: the line index, wire positions and incremental edits (rs/src/documents.rs).

    Every place is specified by the scalar index it denotes; the methods work in byte offsets,
    as the source does, and are proved to denote the same places. */
module Documents {
  import opened Wrappers
  import opened Text
  import C = Columns

  datatype Position = Position(line: nat, character: nat)

  datatype Range = Range(start: Position, end: Position)

  /** What a client reports of one edit: the new text, and the range it replaces unless it is all. */
  datatype Change = Change(range: Option<Range>, text: string)

  // ---------------------------------------------------------------------------------------
  // Lines.

  /** The scalar indices at which the lines of the first `k` scalar values start. */
  function Starts(t: string, k: nat): (s: seq<nat>)
    requires k <= |t|
    ensures |s| == Newlines(t, k) + 1
    ensures s[|s| - 1] == LineBegin(t, k)
  {
    if k == 0 then [0] else if t[k - 1] == '\n' then Starts(t, k - 1) + [k] else Starts(t, k - 1)
  }

  function LineCount(t: string): nat {
    Newlines(t, |t|) + 1
  }

  /** Where line `l` starts. */
  function LineStart(t: string, l: nat): nat
    requires l < LineCount(t)
  {
    Starts(t, |t|)[l]
  }

  lemma {:induction false} StartsPrefix(t: string, i: nat, j: nat)
    requires i <= j <= |t|
    ensures Starts(t, i) <= Starts(t, j)
    decreases j
  {
    if i < j { StartsPrefix(t, i, j - 1); }
  }

  lemma {:induction false} StartsGrow(t: string, k: nat, i: nat, j: nat)
    requires k <= |t| && i < j <= Newlines(t, k)
    ensures Starts(t, k)[i] < Starts(t, k)[j] <= k
    decreases k
  {
    if t[k - 1] != '\n' || j < Newlines(t, k) {
      StartsGrow(t, k - 1, i, j);
    } else if i < Newlines(t, k - 1) {
      StartsGrow(t, k - 1, i, Newlines(t, k - 1));
    }
  }

  /** Line `l` starts right after a line feed, or at the start of the text. */
  lemma {:induction false} StartFollowsFeed(t: string, k: nat, l: nat)
    requires k <= |t| && l <= Newlines(t, k)
    ensures Starts(t, k)[l] <= k
    ensures Newlines(t, Starts(t, k)[l]) == l
    ensures l > 0 ==> Starts(t, k)[l] > 0 && t[Starts(t, k)[l] - 1] == '\n'
  {
    if k > 0 && (t[k - 1] != '\n' || l < Newlines(t, k)) {
      StartFollowsFeed(t, k - 1, l);
    }
  }

  /** The line a place is on is the last one that starts at or before it. */
  lemma {:induction false} LineStartOrder(t: string, k: nat, l: nat)
    requires k <= |t| && l < LineCount(t)
    ensures Newlines(t, k) < LineCount(t) && LineStart(t, Newlines(t, k)) == LineBegin(t, k)
    ensures LineStart(t, l) <= |t| && (LineStart(t, l) <= k <==> l <= Newlines(t, k))
  {
    NewlinesGrow(t, k, |t|);
    StartsPrefix(t, k, |t|);
    StartFollowsFeed(t, |t|, l);
    var s := LineStart(t, l);
    if s <= k { NewlinesGrow(t, s, k); } else { NewlinesGrow(t, k, s); }
    if l <= Newlines(t, k) && l < Newlines(t, k) {
      StartsGrow(t, |t|, l, Newlines(t, k));
    }
  }

  /** The content of line `l`: up to its line feed, and without a carriage return right before
      it or right before the end of the text. */
  function ContentEnd(t: string, l: nat): (e: nat)
    requires l < LineCount(t)
  {
    var start := LineStart(t, l);
    var end :=
      if l + 1 < LineCount(t) then StartFollowsFeed(t, |t|, l + 1); LineStart(t, l + 1) - 1
      else |t|;
    if end > start && t[end - 1] == '\r' then end - 1 else end
  }

  lemma {:induction false} ContentOnLine(t: string, l: nat, k: nat)
    requires l < LineCount(t) && LineStart(t, l) <= k <= |t| && (l + 1 < LineCount(t) ==> k < LineStart(t, l + 1))
    ensures Newlines(t, k) == l
  {
    LineStartOrder(t, k, l);
    if l + 1 < LineCount(t) {
      LineStartOrder(t, k, l + 1);
    } else {
      NewlinesGrow(t, k, |t|);
    }
  }

  lemma {:induction false} ContentInLine(t: string, l: nat)
    requires l < LineCount(t)
    ensures LineStart(t, l) <= ContentEnd(t, l) <= |t|
    ensures l + 1 < LineCount(t) ==>
      LineStart(t, l + 1) <= |t| && 1 <= LineStart(t, l + 1) && t[LineStart(t, l + 1) - 1] == '\n'
    ensures forall k :: LineStart(t, l) <= k <= ContentEnd(t, l) ==> Newlines(t, k) == l
  {
    StartFollowsFeed(t, |t|, l);
    if l + 1 < LineCount(t) {
      StartFollowsFeed(t, |t|, l + 1);
      StartsGrow(t, |t|, l, l + 1);
    }
    forall k | LineStart(t, l) <= k <= ContentEnd(t, l) ensures Newlines(t, k) == l {
      ContentOnLine(t, l, k);
    }
  }

  // ---------------------------------------------------------------------------------------
  // Wire positions.

  /** The wire position of scalar index `k`. */
  function PositionOf(enc: Encoding, t: string, k: nat): Position
    requires k <= |t|
  {
    WidthGrows(enc, t, LineBegin(t, k), k);
    Position(Newlines(t, k), Width(enc, t, k) - Width(enc, t, LineBegin(t, k)))
  }

  /** The first index from `i` up to `e` at least `want` units past `s`. */
  function Seek(enc: Encoding, t: string, s: nat, i: nat, e: nat, want: nat): (r: nat)
    requires s <= i <= e <= |t|
    ensures i <= r <= e
    decreases e - i
  {
    if i == e || Width(enc, t, i) >= Width(enc, t, s) + want then i
    else Seek(enc, t, s, i + 1, e, want)
  }

  function ClampLine(t: string, line: nat): (l: nat)
    ensures l < LineCount(t)
  {
    if line < LineCount(t) then line else LineCount(t) - 1
  }

  /** The scalar index a wire position denotes: the line clamped to the last, the character to
      the line's content, a place inside a character to the boundary after it. */
  function IndexOf(enc: Encoding, t: string, p: Position): (k: nat)
    ensures k <= |t|
  {
    var l := ClampLine(t, p.line);
    ContentInLine(t, l);
    Seek(enc, t, LineStart(t, l), LineStart(t, l), ContentEnd(t, l), p.character)
  }

  lemma {:induction false} SeekFinds(enc: Encoding, t: string, s: nat, i: nat, e: nat, k: nat)
    requires s <= i <= e <= |t| && i <= k
    requires k <= |t|
    ensures Width(enc, t, s) <= Width(enc, t, k)
    ensures Seek(enc, t, s, i, e, Width(enc, t, k) - Width(enc, t, s)) == if k <= e then k else e
    decreases e - i
  {
    WidthGrows(enc, t, s, k);
    if i < k {
      WidthGrows(enc, t, i, k);
      if i < e { SeekFinds(enc, t, s, i + 1, e, k); }
    }
  }

  /** Place `k` is past its line's content: behind a carriage return that ends the line or the
      text. */
  predicate InBreak(t: string, k: nat)
    requires k <= |t|
  {
    k > 0 && t[k - 1] == '\r' && (k == |t| || t[k] == '\n')
  }

  /** The content of a line is all of it but the break. */
  lemma {:induction false} ContentIsOutsideBreaks(t: string, k: nat)
    requires k <= |t|
    ensures Newlines(t, k) < LineCount(t)
    ensures k <= ContentEnd(t, Newlines(t, k)) <==> !InBreak(t, k)
    ensures k == ContentEnd(t, Newlines(t, k)) ==> k == |t| || t[k] == '\n' || InBreak(t, k + 1)
  {
    var l := Newlines(t, k);
    LineStartOrder(t, k, 0);
    ContentInLine(t, l);
    if l + 1 < LineCount(t) {
      LineStartOrder(t, k, l + 1);
      if k < |t| { LineStartOrder(t, k + 1, l + 1); }
    } else {
      NewlinesGrow(t, k, |t|);
    }
  }

  /** A place survives the trip to the client and back exactly when it is not inside a line break
      or behind a carriage return that ends the text: no such place has a position of its own. */
  lemma {:induction false} RoundTrip(enc: Encoding, t: string, k: nat)
    requires k <= |t|
    ensures Newlines(t, k) < LineCount(t)
    ensures IndexOf(enc, t, PositionOf(enc, t, k)) == k <==> !InBreak(t, k)
    ensures !InBreak(t, k) <==> k <= ContentEnd(t, Newlines(t, k))
  {
    var l := Newlines(t, k);
    LineStartOrder(t, k, 0);
    ContentInLine(t, l);
    ContentIsOutsideBreaks(t, k);
    SeekFinds(enc, t, LineStart(t, l), LineStart(t, l), ContentEnd(t, l), k);
  }

  /** What a position denotes, for every position: a place on its line, or on the last when there
      are fewer; of the places not past that line's content the first at least `character` units
      from the line's start, or the last of all. */
  lemma {:induction false} IndexOfExactly(enc: Encoding, t: string, p: Position)
    ensures var k := IndexOf(enc, t, p);
      var b := LineBegin(t, k);
      && Newlines(t, k) == (if p.line < Newlines(t, |t|) then p.line else Newlines(t, |t|))
      && !InBreak(t, k)
      && (forall j :: b <= j < k ==> Width(enc, t, j) < Width(enc, t, b) + p.character)
      && (Width(enc, t, k) >= Width(enc, t, b) + p.character || k == |t| || t[k] == '\n' || InBreak(t, k + 1))
  {
    var k, l := IndexOf(enc, t, p), ClampLine(t, p.line);
    ContentInLine(t, l);
    assert Newlines(t, k) == l;
    LineStartOrder(t, k, l);
    ContentIsOutsideBreaks(t, k);
    SeekIsFirst(enc, t, LineStart(t, l), LineStart(t, l), ContentEnd(t, l), p.character);
  }

  lemma {:induction false} SeekIsFirst(enc: Encoding, t: string, s: nat, i: nat, e: nat, want: nat)
    requires s <= i <= e <= |t|
    ensures var k := Seek(enc, t, s, i, e, want);
      && (forall j :: i <= j < k ==> Width(enc, t, j) < Width(enc, t, s) + want)
      && (k == e || Width(enc, t, k) >= Width(enc, t, s) + want)
    decreases e - i
  {
    if i < e && Width(enc, t, i) < Width(enc, t, s) + want { SeekIsFirst(enc, t, s, i + 1, e, want); }
  }

  /** A position past the last line denotes the end of the text exactly when the text does not end
      in a carriage return and the character reaches into the last line's last place. */
  lemma {:induction false} PastLastLine(enc: Encoding, t: string, p: Position)
    requires p.line > Newlines(t, |t|)
    ensures IndexOf(enc, t, p) == |t| <==>
      && !InBreak(t, |t|)
      && (LineBegin(t, |t|) == |t| ||
          Width(enc, t, |t| - 1) < Width(enc, t, LineBegin(t, |t|)) + p.character)
  {
    var k, b := IndexOf(enc, t, p), LineBegin(t, |t|);
    IndexOfExactly(enc, t, p);
    NewlinesGrow(t, k, |t|);
    SameLineBegin(t, k, |t|);
    if k < |t| {
      WidthGrows(enc, t, k, |t| - 1);
    }
  }

  /** The place between the two characters of a line break does not survive: it is sent as the end
      of the line, which is before both. */
  lemma {:induction false} BreakIsNotAddressable(enc: Encoding)
    ensures IndexOf(enc, "\r\n", PositionOf(enc, "\r\n", 1)) != 1
  {
    var t := "\r\n";
    RoundTrip(enc, t, 1);
  }

  /** Whatever position a client sends, the place it denotes is addressable, so normalizing it
      once is enough. */
  lemma {:induction false} NormalizeOnce(enc: Encoding, t: string, p: Position)
    ensures IndexOf(enc, t, PositionOf(enc, t, IndexOf(enc, t, p))) == IndexOf(enc, t, p)
  {
    var k, l := IndexOf(enc, t, p), ClampLine(t, p.line);
    ContentInLine(t, l);
    assert Newlines(t, k) == l;
    RoundTrip(enc, t, k);
  }

  // ---------------------------------------------------------------------------------------
  // Edits, and the client's copy.

  /** The text after one change: `apply_change`. */
  function Applied(enc: Encoding, t: string, c: Change): string {
    match c.range
    case None => c.text
    case Some(r) => t[..IndexOf(enc, t, r.start)] + c.text + t[IndexOf(enc, t, r.end)..]
  }

  function AppliedAll(enc: Encoding, t: string, cs: seq<Change>): string
    decreases |cs|
  {
    if cs == [] then t else AppliedAll(enc, Applied(enc, t, cs[0]), cs[1..])
  }

  /** An edit as the client makes it, on its own copy: all of it replaced, a part, or everything
      from a place on, named by a line past the last. */
  datatype Edit =
    | Replace(text: string)
    | Splice(from: nat, to: nat, text: string)
    | Overrun(from: nat, line: nat, text: string)

  /** A place a client can name. */
  predicate Addressable(t: string, k: nat) {
    k <= |t| && !InBreak(t, k)
  }

  /** Places are addressable; a line past the last is named only when the last line is empty. */
  predicate Sendable(t: string, e: Edit) {
    match e
    case Replace(_) => true
    case Splice(from, to, _) => from <= to && Addressable(t, from) && Addressable(t, to)
    case Overrun(from, line, _) => Addressable(t, from) && line > Newlines(t, |t|) && LineBegin(t, |t|) == |t|
  }

  function Edited(t: string, e: Edit): string
    requires Sendable(t, e)
  {
    match e
    case Replace(text) => text
    case Splice(from, to, text) => t[..from] + text + t[to..]
    case Overrun(from, _, text) => t[..from] + text
  }

  /** The change the client sends for an edit. */
  function Sent(enc: Encoding, t: string, e: Edit): Change
    requires Sendable(t, e)
  {
    match e
    case Replace(text) => Change(None, text)
    case Splice(from, to, text) =>
      Change(Some(Range(PositionOf(enc, t, from), PositionOf(enc, t, to))), text)
    case Overrun(from, line, text) =>
      Change(Some(Range(PositionOf(enc, t, from), Position(line, 0))), text)
  }

  /** A run of edits, each made on what the one before it left. */
  predicate SendableAll(t: string, es: seq<Edit>)
    decreases |es|
  {
    es != [] ==> Sendable(t, es[0]) && SendableAll(Edited(t, es[0]), es[1..])
  }

  function EditedAll(t: string, es: seq<Edit>): string
    requires SendableAll(t, es)
    decreases |es|
  {
    if es == [] then t else EditedAll(Edited(t, es[0]), es[1..])
  }

  function SentAll(enc: Encoding, t: string, es: seq<Edit>): (cs: seq<Change>)
    requires SendableAll(t, es)
    ensures |cs| == |es|
    decreases |es|
  {
    if es == [] then [] else [Sent(enc, t, es[0])] + SentAll(enc, Edited(t, es[0]), es[1..])
  }

  lemma {:induction false} OneEditInSync(enc: Encoding, t: string, e: Edit)
    requires Sendable(t, e)
    ensures Applied(enc, t, Sent(enc, t, e)) == Edited(t, e)
  {
    if e.Splice? {
      RoundTrip(enc, t, e.from);
      RoundTrip(enc, t, e.to);
    } else if e.Overrun? {
      RoundTrip(enc, t, e.from);
      PastLastLine(enc, t, Position(e.line, 0));
    }
  }

  lemma {:induction false} FirstOfRun<X>(xs: seq<X>, n: nat)
    requires 0 < n <= |xs|
    ensures xs[..n] == [xs[0]] + xs[1..][..n - 1] && xs[..n][1..] == xs[1..][..n - 1]
  {
  }

  /** The server's copy is the client's after every change of the run. */
  lemma {:induction false} ReplicaInSync(enc: Encoding, t: string, es: seq<Edit>, n: nat)
    requires SendableAll(t, es) && n <= |es|
    ensures SendableAll(t, es[..n])
    ensures AppliedAll(enc, t, SentAll(enc, t, es)[..n]) == EditedAll(t, es[..n])
    decreases n
  {
    if n > 0 {
      var u := Edited(t, es[0]);
      OneEditInSync(enc, t, es[0]);
      ReplicaInSync(enc, u, es[1..], n - 1);
      FirstOfRun(es, n);
      var cs := SentAll(enc, t, es);
      assert cs[1..] == SentAll(enc, u, es[1..]);
      FirstOfRun(cs, n);
    }
  }

  // ---------------------------------------------------------------------------------------
  // The document, in byte offsets.

  /** The byte offsets at which the lines of the first `k` scalar values start. */
  function ByteStarts(t: string, k: nat): (s: seq<nat>)
    requires k <= |t|
    ensures |s| == Newlines(t, k) + 1
  {
    if k == 0 then [0]
    else if t[k - 1] == '\n' then ByteStarts(t, k - 1) + [Offset(t, k)]
    else ByteStarts(t, k - 1)
  }

  lemma {:induction false} ByteStartsAt(t: string, k: nat, l: nat)
    requires k <= |t| && l <= Newlines(t, k)
    ensures Starts(t, k)[l] <= k && ByteStarts(t, k)[l] == Offset(t, Starts(t, k)[l])
  {
    StartFollowsFeed(t, k, l);
    if k > 0 && (t[k - 1] != '\n' || l < Newlines(t, k)) {
      ByteStartsAt(t, k - 1, l);
    }
  }

  /** How many leading elements are at most `x`: the standard library's binary search. */
  function PartitionPoint(s: seq<nat>, x: nat): (n: nat)
    ensures n <= |s|
    ensures forall i :: 0 <= i < n ==> s[i] <= x
    ensures n < |s| ==> s[n] > x
  {
    if s == [] || s[0] > x then 0 else 1 + PartitionPoint(s[1..], x)
  }

  /** Searching the line index finds the line of a boundary. */
  lemma {:induction false} PartitionFindsLine(t: string, k: nat)
    requires k <= |t|
    ensures PartitionPoint(ByteStarts(t, |t|), Offset(t, k)) == Newlines(t, k) + 1
  {
    var l, n := Newlines(t, k), PartitionPoint(ByteStarts(t, |t|), Offset(t, k));
    LineStartOrder(t, k, 0);
    if n <= l {
      ByteStartsAt(t, |t|, n);
      LineStartOrder(t, k, n);
      C.OffsetOrder(t, k, LineStart(t, n));
    } else if n > l + 1 {
      ByteStartsAt(t, |t|, l + 1);
      LineStartOrder(t, k, l + 1);
      C.OffsetOrder(t, k, LineStart(t, l + 1));
    }
  }

  /** The byte before a line feed's end is the line feed's own. */
  lemma {:induction false} OffsetOfAscii(t: string, k: nat)
    requires 0 < k <= |t| && (t[k - 1] == '\n' || t[k - 1] == '\r')
    ensures Offset(t, k) == Offset(t, k - 1) + 1
  {
  }

  /** Where line `l` ends, its break left out. */
  function BreakAt(t: string, l: nat): (e: nat)
    requires l < LineCount(t)
  {
    if l + 1 < LineCount(t) then StartFollowsFeed(t, |t|, l + 1); LineStart(t, l + 1) - 1 else |t|
  }

  /** A line break and a carriage return before it are one byte each, so the line's ends in bytes
      are found by stepping back. */
  lemma {:induction false} BreakBytes(t: string, l: nat)
    requires l < LineCount(t)
    ensures var e, s := BreakAt(t, l), LineStart(t, l);
      && s <= e <= |t| && Floor(t, Offset(t, e)) == e
      && (l + 1 < LineCount(t) ==> LineStart(t, l + 1) <= |t| && Offset(t, LineStart(t, l + 1)) - 1 == Offset(t, e))
      && (Offset(t, s) < Offset(t, e) <==> s < e)
      && ContentEnd(t, l) == (if s < e && t[e - 1] == '\r' then e - 1 else e)
      && (s < e && t[e - 1] == '\r' ==> Offset(t, e - 1) == Offset(t, e) - 1)
  {
    var e, s := BreakAt(t, l), LineStart(t, l);
    ContentInLine(t, l);
    if l + 1 < LineCount(t) {
      StartsGrow(t, |t|, l, l + 1);
      OffsetOfAscii(t, e + 1);
    }
    FloorOfOffset(t, e);
    C.OffsetOrder(t, s, e);
    if s < e && t[e - 1] == '\r' {
      OffsetOfAscii(t, e);
    }
  }

  /** A position from the index: the line's start, and the width of the text from there. */
  lemma {:induction false} PositionFromStart(enc: Encoding, t: string, k: nat)
    requires k <= |t|
    ensures var starts, line := ByteStarts(t, |t|), Newlines(t, k);
      && line < |starts| && starts[line] <= Offset(t, k)
      && IsBoundary(t, starts[line]) && IsBoundary(t, Offset(t, k))
      && var before := Slice(t, starts[line], Offset(t, k));
      PositionOf(enc, t, k) == Position(line, Width(enc, before, |before|))
  {
    var b := LineBegin(t, k);
    NewlinesGrow(t, k, |t|);
    LineStartOrder(t, k, Newlines(t, k));
    ByteStartsAt(t, |t|, Newlines(t, k));
    assert ByteStarts(t, |t|)[Newlines(t, k)] == Offset(t, b);
    SliceOfIndices(t, b, k);
    WidthOfSlice(enc, t, b, k);
  }

  class Doc {
    const enc: Encoding
    var text: string
    var version: int
    /** The line index, built on first use. */
    var index: Option<seq<nat>>

    /** The cached line index is absent or the one the text has. */
    ghost predicate Valid()
      reads this
    {
      index.Some? ==> index.value == ByteStarts(text, |text|)
    }

    constructor (enc: Encoding, text: string, version: int)
      ensures Valid() && this.enc == enc && this.text == text && this.version == version
    {
      this.enc, this.text, this.version := enc, text, version;
      index := None;
    }

    method Update(text: string, version: int)
      modifies this
      ensures Valid() && this.text == text && this.version == version
    {
      this.text, this.version := text, version;
      index := None;
    }

    method LineStarts() returns (starts: seq<nat>)
      requires Valid()
      modifies this`index
      ensures Valid() && starts == ByteStarts(text, |text|)
    {
      if index.None? {
        starts := [0];
        var byte := 0;
        for i := 0 to |text|
          invariant byte == Offset(text, i) && starts == ByteStarts(text, i)
        {
          byte := byte + Utf8Len(text[i]);
          if text[i] == '\n' {
            starts := starts + [byte];
          }
        }
        index := Some(starts);
      }
      starts := index.value;
    }

    /** How many line feeds stand before a boundary, by a search of the line index. */
    method LineOf(offset: nat) returns (line: nat)
      requires Valid() && IsBoundary(text, offset)
      modifies this`index
      ensures Valid() && line == Newlines(text, Floor(text, offset))
    {
      var starts := LineStarts();
      PartitionFindsLine(text, Floor(text, offset));
      var n := PartitionPoint(starts, offset);
      line := (if n < 1 then 1 else n) - 1;
    }

    /** Where a line's content starts and ends, in bytes; past the last line, the last one's. */
    method LineSpan(line: nat) returns (start: nat, end: nat)
      requires Valid()
      modifies this`index
      ensures var l := if line < LineCount(text) then line else LineCount(text) - 1;
        && Valid() && LineStart(text, l) <= ContentEnd(text, l) <= |text|
        && start == Offset(text, LineStart(text, l)) && end == Offset(text, ContentEnd(text, l))
    {
      var starts := LineStarts();
      var l := if line < |starts| then line else |starts| - 1;
      ContentInLine(text, l);
      ByteStartsAt(text, |text|, l);
      start := starts[l];
      BreakBytes(text, l);
      if l + 1 < |starts| {
        ByteStartsAt(text, |text|, l + 1);
        end := starts[l + 1] - 1;
      } else {
        end := ByteLen(text);
      }
      if end > start && text[Floor(text, end) - 1] == '\r' {
        end := end - 1;
      }
    }

    method PositionAt(offset: nat) returns (p: Position)
      requires Valid()
      modifies this`index
      ensures Valid() && p == PositionOf(enc, text, Floor(text, offset))
    {
      ghost var k := Floor(text, offset);
      var b := C.BoundaryAtOrBefore(text, offset);
      FloorOfOffset(text, k);
      var line := LineOf(b);
      var starts := LineStarts();
      PositionFromStart(enc, text, k);
      var before := Slice(text, starts[line], b);
      p := Position(line, Width(enc, before, |before|));
    }

    /** The text between two boundaries. */
    method SliceBetween(ghost s: nat, ghost e: nat, start: nat, end: nat) returns (content: string)
      requires s <= e <= |text| && start == Offset(text, s) && end == Offset(text, e)
      ensures content == text[s..e]
    {
      SliceOfIndices(text, s, e);
      content := Slice(text, start, end);
    }

    method OffsetAt(p: Position) returns (b: nat)
      requires Valid()
      modifies this`index
      ensures Valid() && b == Offset(text, IndexOf(enc, text, p))
    {
      var start, end := LineSpan(p.line);
      ghost var l := ClampLine(text, p.line);
      ghost var s, e := LineStart(text, l), ContentEnd(text, l);
      var content := SliceBetween(s, e, start, end);
      var units, byte := 0, 0;
      for i := 0 to |content|
        invariant s + i <= e && |content| == e - s
        invariant Width(enc, text, s) + units == Width(enc, text, s + i)
        invariant start + byte == Offset(text, s + i)
        invariant IndexOf(enc, text, p) == Seek(enc, text, s, s + i, e, p.character)
      {
        if units >= p.character {
          return start + byte;
        }
        assert content[i] == text[s + i];
        units := units + Units(enc, content[i]);
        byte := byte + Utf8Len(content[i]);
      }
      b := end;
    }

    /** Apply one change. Both ends of the spliced range are character boundaries, so the
        slices never fall inside a character; the line index is dropped with the old text. */
    method ApplyChange(c: Change)
      requires Valid()
      modifies this
      ensures Valid() && version == old(version)
      ensures text == Applied(enc, old(text), c)
      ensures c.range.None? ==> text == c.text
      ensures c.range.Some? ==>
        text == old(text)[..IndexOf(enc, old(text), c.range.value.start)] + c.text
                + old(text)[IndexOf(enc, old(text), c.range.value.end)..]
    {
      var next := c.text;
      if c.range.Some? {
        var start := OffsetAt(c.range.value.start);
        var end := OffsetAt(c.range.value.end);
        ghost var i, j := IndexOf(enc, text, c.range.value.start), IndexOf(enc, text, c.range.value.end);
        SliceOfIndices(text, 0, i);
        SliceOfIndices(text, j, |text|);
        next := Slice(text, 0, start) + c.text + Slice(text, end, ByteLen(text));
      }
      Update(next, version);
    }

    /** Fold the changes of one notification over the text and stamp it. */
    method ApplyChanges(changes: seq<Change>, version: int)
      requires Valid()
      modifies this
      ensures Valid() && this.version == version
      ensures text == AppliedAll(enc, old(text), changes)
    {
      for i := 0 to |changes|
        invariant Valid()
        invariant AppliedAll(enc, text, changes[i..]) == AppliedAll(enc, old(text), changes)
      {
        assert changes[i..][1..] == changes[i + 1..];
        ApplyChange(changes[i]);
      }
      this.version := version;
    }

    /** Where the client sees what the engine places at a row, a column and a byte. */
    method PositionFromSite(si: nat, row: nat, col: nat) returns (p: Position)
      requires Valid()
      modifies this`index
      ensures Valid() && p == SitePosition(enc, text, Floor(text, si), row, col)
    {
      var starts := LineStarts();
      var line := if C.Pred(row) < |starts| then C.Pred(row) else |starts| - 1;
      var b := C.BoundaryAtOrBefore(text, si);
      FloorOfOffset(text, Floor(text, si));
      p := Position(line, C.WalkBack(enc, text, Floor(text, b), C.Pred(col)).units);
    }

    /** From a count of scalar values to a byte offset, clamped to the text. */
    method ByteOfScalar(pos: nat) returns (b: nat)
      ensures b == Offset(text, if pos < |text| then pos else |text|)
    {
      var i := 0;
      b := 0;
      while i < |text| && i < pos
        invariant i <= |text| && i <= pos && b == Offset(text, i)
      {
        b := b + Utf8Len(text[i]);
        i := i + 1;
      }
    }

    /** The range of an engine diagnostic `len` scalar values long. */
    method RangeFrom(row: nat, col: nat, pos: nat, len: nat) returns (r: Range)
      requires Valid()
      modifies this`index
      ensures Valid() && r == SiteRange(enc, text, row, col, pos, len)
    {
      ghost var k := if pos < |text| then pos else |text|;
      var from := ByteOfScalar(pos);
      FloorOfOffset(text, k);
      FloorOfOffset(text, |text|);
      var start := PositionFromSite(from, row, col);
      SliceOfIndices(text, k, |text|);
      var rest := Slice(text, from, ByteLen(text));
      var i, end := 0, from;
      while i < |rest| && i < len
        invariant i <= |rest| && i <= len && end == Offset(text, k + i)
      {
        assert rest[i] == text[k + i];
        end := end + Utf8Len(rest[i]);
        i := i + 1;
      }
      FloorOfOffset(text, k + i);
      var stop := PositionAt(end);
      r := Range(start, stop);
    }
  }

  /** After a lone carriage return the engine's column and the wire's part ways. */
  lemma {:induction false} ReturnMovesSite(enc: Encoding)
    ensures SitePosition(enc, "x\ry", 2, RowAt("x\ry", 2), ColumnAt("x\ry", 2)) != PositionOf(enc, "x\ry", 2)
  {
    var t := "x\ry";
    assert LineBegin(t, 0) == 0 && LineBegin(t, 1) == 0 && LineBegin(t, 2) == 0;
    SiteIsPosition(enc, t, 2);
    assert t[1] == '\r';
  }

  /** The range of a diagnostic: from its site, over `len` scalar values of the text. */
  function SiteRange(enc: Encoding, t: string, row: nat, col: nat, pos: nat, len: nat): Range {
    var from := if pos < |t| then pos else |t|;
    var end := if from + len < |t| then from + len else |t|;
    Range(SitePosition(enc, t, from, row, col), PositionOf(enc, t, end))
  }

  /** A diagnostic's range, its row and column being the engine's, has the wire positions of its
      source's two ends, both clamped to the text, exactly when no lone carriage return restarted
      the column; and the client then selects exactly the source, unless an end of it is inside a
      line break. */
  lemma {:induction false} RangeSelectsSource(enc: Encoding, t: string, pos: nat, len: nat)
    ensures var from := if pos < |t| then pos else |t|;
      var end := if from + len < |t| then from + len else |t|;
      var r := SiteRange(enc, t, RowAt(t, from), ColumnAt(t, from), pos, len);
      && (r == Range(PositionOf(enc, t, from), PositionOf(enc, t, end))
          <==> forall i :: LineBegin(t, from) <= i < from ==> t[i] != '\r')
      && (IndexOf(enc, t, r.end) == end <==> !InBreak(t, end))
      && (r.start == PositionOf(enc, t, from) ==> (IndexOf(enc, t, r.start) == from <==> !InBreak(t, from)))
  {
    var from := if pos < |t| then pos else |t|;
    var end := if from + len < |t| then from + len else |t|;
    var r := SiteRange(enc, t, RowAt(t, from), ColumnAt(t, from), pos, len);
    SiteIsPosition(enc, t, from);
    RoundTrip(enc, t, from);
    RoundTrip(enc, t, end);
    assert r.end == PositionOf(enc, t, end);
  }

  /** What any row and column come to at place `k`, the engine's or not: a line of the text, and
      the width of as many scalar values before `k` as the column counts, if there are so many. */
  lemma {:induction false} SiteExactly(enc: Encoding, t: string, k: nat, row: nat, col: nat)
    requires k <= |t|
    ensures var p := SitePosition(enc, t, k, row, col);
      var back := if col < 1 then 0 else if col - 1 < k then col - 1 else k;
      && p.line == (if row < 1 then 0 else if row - 1 < Newlines(t, |t|) then row - 1 else Newlines(t, |t|))
      && p.character == Width(enc, t, k) - Width(enc, t, k - back)
  {
    C.WalkBackIsWindow(enc, t, k, C.Pred(col));
  }

  /** The position an engine site comes to: its row clamped to the text, and the walk back over
      as many scalar values as its column counts. */
  function SitePosition(enc: Encoding, t: string, k: nat, row: nat, col: nat): Position
    requires k <= |t|
  {
    Position(ClampLine(t, C.Pred(row)), C.WalkBack(enc, t, k, C.Pred(col)).units)
  }

  /** A token's position measured from its engine row and column is the wire position of its
      offset exactly when no lone carriage return restarted the engine's column in its line. */
  lemma {:induction false} SiteIsPosition(enc: Encoding, t: string, k: nat)
    requires k <= |t|
    ensures SitePosition(enc, t, k, RowAt(t, k), ColumnAt(t, k)) == PositionOf(enc, t, k)
      <==> forall i :: LineBegin(t, k) <= i < k ==> t[i] != '\r'
  {
    var line, col := LineBegin(t, k), ColumnBegin(t, k);
    NewlinesGrow(t, k, |t|);
    C.WalkBackIsWindow(enc, t, k, k - col);
    if line < col {
      WidthGrows(enc, t, line, col);
      assert t[col - 1] == '\r';
    }
  }
}
