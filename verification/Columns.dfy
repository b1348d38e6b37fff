/** Engine columns as wire columns, measured in one forward pass (rs/src/semantic.rs and
    rs/src/outline.rs, `Columns`).

    What an engine column counts in scalar values, the wire counts in its own units: the column
    is a difference of two prefix sums, one per cursor. Cursors only go forwards, so a query that
    would need one to go back is answered by the slow measure, `WalkBack`. */
module Columns {
  import opened Text

  /** What precedes a byte offset: scalar values and wire units. */
  datatype Cursor = Cursor(byte: nat, chars: nat, units: nat)

  /** A measured column, in wire units and in scalar values. */
  datatype Column = Column(units: nat, chars: nat)

  /** A token position to measure: its byte offset and its engine column. */
  datatype Query = Query(si: nat, ci: nat)

  /** `n` less one, or zero: `saturating_sub(1)`. */
  function Pred(n: nat): nat {
    if n == 0 then 0 else n - 1
  }

  function SaturatingSub(a: nat, b: nat): nat {
    if a <= b then 0 else a - b
  }

  /** Walk back from scalar index `k` over up to `want` scalar values: `walk_back`. */
  function WalkBack(enc: Encoding, t: string, k: nat, want: nat): Column
    requires k <= |t|
  {
    if k == 0 || want == 0 then Column(0, 0)
    else
      var rest := WalkBack(enc, t, k - 1, want - 1);
      Column(rest.units + Units(enc, t[k - 1]), rest.chars + 1)
  }

  /** Walking back measures the window between two prefix sums. */
  lemma {:induction false} WalkBackIsWindow(enc: Encoding, t: string, k: nat, want: nat)
    requires k <= |t|
    ensures var start := SaturatingSub(k, want);
      && Width(enc, t, start) <= Width(enc, t, k)
      && WalkBack(enc, t, k, want) == Column(Width(enc, t, k) - Width(enc, t, start), k - start)
    decreases k
  {
    if k > 0 && want > 0 { WalkBackIsWindow(enc, t, k - 1, want - 1); }
  }

  /** The cursor after the first `k` scalar values. */
  function CursorAt(enc: Encoding, t: string, k: nat): Cursor
    requires k <= |t|
  {
    Cursor(Offset(t, k), k, Width(enc, t, k))
  }

  /** Move a cursor forwards to scalar index `k`, counting what is passed: `advance_to` and
      `advance_chars`, which differ only in how they name the place. */
  method Advance(enc: Encoding, t: string, c: Cursor, k: nat) returns (r: Cursor)
    requires c.chars <= k <= |t| && c == CursorAt(enc, t, c.chars)
    ensures r == CursorAt(enc, t, k)
  {
    r := c;
    while r.chars < k
      invariant c.chars <= r.chars <= k && r == CursorAt(enc, t, r.chars)
    {
      r := Cursor(r.byte + Utf8Len(t[r.chars]), r.chars + 1, r.units + Units(enc, t[r.chars]));
    }
  }

  /** Move `si` into the text and back to a scalar boundary: `boundary_at_or_before`. */
  method BoundaryAtOrBefore(t: string, si: nat) returns (b: nat)
    ensures b == Offset(t, Floor(t, si))
  {
    b := if si < ByteLen(t) then si else ByteLen(t);
    if si >= ByteLen(t) {
      FloorGrows(t, ByteLen(t), si);
      FloorOfOffset(t, |t|);
    }
    while !IsBoundary(t, b)
      invariant Offset(t, Floor(t, si)) <= b <= si
      decreases b
    {
      FloorGrows(t, b, si);
      FloorGrows(t, Offset(t, Floor(t, si)), b);
      FloorOfOffset(t, Floor(t, si));
      b := b - 1;
    }
    FloorGrows(t, b, si);
    FloorGrows(t, Offset(t, Floor(t, si)), b);
    FloorOfOffset(t, Floor(t, si));
  }

  // ---------------------------------------------------------------------------------------
  // The two cursors as indices.

  datatype Cursors = Cursors(at: nat, from: nat)

  /** The scalar index a query is measured at. */
  function Place(t: string, q: Query): (k: nat)
    ensures k <= |t|
  {
    Floor(t, q.si)
  }

  /** Where the window a query's column measures starts. */
  function WindowStart(t: string, q: Query): (k: nat)
    ensures k <= Place(t, q)
  {
    SaturatingSub(Place(t, q), Pred(q.ci))
  }

  /** Whether a query has to walk back rather than move the cursors on. */
  predicate FallsBack(t: string, c: Cursors, q: Query) {
    Place(t, q) < c.at || WindowStart(t, q) < c.from
  }

  function Moved(t: string, c: Cursors, q: Query): Cursors {
    if Place(t, q) < c.at then c
    else if WindowStart(t, q) < c.from then Cursors(Place(t, q), c.from)
    else Cursors(Place(t, q), WindowStart(t, q))
  }

  /** The two cursors over a text. */
  class Columns {
    const enc: Encoding
    const text: string
    var at: Cursor
    var from: Cursor

    ghost predicate Valid()
      reads this
    {
      && from.chars <= at.chars <= |text|
      && at == CursorAt(enc, text, at.chars) && from == CursorAt(enc, text, from.chars)
    }

    ghost function State(): Cursors
      reads this
    {
      Cursors(at.chars, from.chars)
    }

    constructor (enc: Encoding, text: string)
      ensures Valid() && this.enc == enc && this.text == text && State() == Cursors(0, 0)
    {
      this.enc, this.text := enc, text;
      at, from := Cursor(0, 0, 0), Cursor(0, 0, 0);
    }

    /** Answer one query, moving the cursors when it allows. Whatever order the queries
        come in, the answer is the walk back from the clamped boundary. */
    method Measure(si: nat, ci: nat) returns (col: Column)
      requires Valid()
      modifies this`at, this`from
      ensures Valid() && State() == Moved(text, old(State()), Query(si, ci))
      ensures col == WalkBack(enc, text, Floor(text, si), Pred(ci))
    {
      var b := BoundaryAtOrBefore(text, si);
      ghost var k := Floor(text, si);
      var want := Pred(ci);
      FloorOfOffset(text, k);
      OffsetOrder(text, k, at.chars);
      if b < at.byte {
        return WalkBack(enc, text, Floor(text, b), want);
      }
      at := Advance(enc, text, at, Floor(text, b));
      var start := SaturatingSub(at.chars, want);
      if start < from.chars {
        return WalkBack(enc, text, Floor(text, b), want);
      }
      from := Advance(enc, text, from, start);
      WalkBackIsWindow(enc, text, k, want);
      col := Column(at.units - from.units, at.chars - from.chars);
    }
  }

  lemma {:induction false} OffsetOrder(t: string, i: nat, j: nat)
    requires i <= |t| && j <= |t|
    ensures Offset(t, i) < Offset(t, j) <==> i < j
  {
    if i < j { WidthGrows(Utf8, t, i, j); } else { WidthGrows(Utf8, t, j, i); }
  }

  /** Measure a list of positions with one pair of cursors. */
  method MeasureAll(enc: Encoding, text: string, queries: seq<Query>) returns (cols: seq<Column>)
    ensures |cols| == |queries|
    ensures forall i :: 0 <= i < |queries| ==>
      cols[i] == WalkBack(enc, text, Floor(text, queries[i].si), Pred(queries[i].ci))
  {
    var columns := new Columns(enc, text);
    cols := [];
    for i := 0 to |queries|
      invariant columns.Valid() && columns.enc == enc && columns.text == text
      invariant |cols| == i
      invariant forall j :: 0 <= j < i ==>
        cols[j] == WalkBack(enc, text, Floor(text, queries[j].si), Pred(queries[j].ci))
    {
      var col := columns.Measure(queries[i].si, queries[i].ci);
      cols := cols + [col];
    }
  }

  // ---------------------------------------------------------------------------------------
  // What a run of queries costs.

  predicate RunFallsBack(t: string, c: Cursors, qs: seq<Query>)
    decreases |qs|
  {
    qs != [] && (FallsBack(t, c, qs[0]) || RunFallsBack(t, Moved(t, c, qs[0]), qs[1..]))
  }

  /** How many scalar values the two cursors pass in a run of queries. */
  function Travel(t: string, c: Cursors, qs: seq<Query>): int
    decreases |qs|
  {
    if qs == [] then 0
    else
      var d := Moved(t, c, qs[0]);
      (d.at - c.at) + (d.from - c.from) + Travel(t, d, qs[1..])
  }

  predicate InOrderFrom(t: string, place: nat, start: nat, qs: seq<Query>)
    decreases |qs|
  {
    qs == [] ||
    (place <= Place(t, qs[0]) && start <= WindowStart(t, qs[0])
     && InOrderFrom(t, Place(t, qs[0]), WindowStart(t, qs[0]), qs[1..]))
  }

  /** A run falls back exactly when its offsets or its window starts step backwards. */
  lemma {:induction false} FallbackIffOutOfOrder(t: string, c: Cursors, qs: seq<Query>)
    ensures RunFallsBack(t, c, qs) <==> !InOrderFrom(t, c.at, c.from, qs)
    decreases |qs|
  {
    if qs != [] { FallbackIffOutOfOrder(t, Moved(t, c, qs[0]), qs[1..]); }
  }

  /** The cursors only move forwards, so a run of queries in any order moves them at most twice
      the length of the text. */
  lemma {:induction false} TravelBounded(t: string, c: Cursors, qs: seq<Query>)
    requires c.from <= c.at <= |t|
    ensures 0 <= Travel(t, c, qs) <= (|t| - c.at) + (|t| - c.from)
    decreases |qs|
  {
    if qs != [] { TravelBounded(t, Moved(t, c, qs[0]), qs[1..]); }
  }
}
