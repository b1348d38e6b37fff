/** Where tokens stand in a text, and what the engine reports of it. */
module Sites {
  import opened Text
  import C = Columns
  import D = Documents
  import T = Trace

  /** The token's text stands in the document at scalar index `k`, where its offset says. */
  predicate SitsAt(text: string, t: T.TokenPoint, k: nat) {
    k + |t.src| <= |text| && t.si == Offset(text, k) && text[k..k + |t.src|] == t.src
  }

  /** The token stands at index `k` with the engine's row and column for it. */
  predicate Consistent(text: string, t: T.TokenPoint, k: nat) {
    SitsAt(text, t, k) && t.ri == RowAt(text, k) && t.ci == ColumnAt(text, k)
  }

  /** The engine's place for index `x`: its line, and the distance from the last break before it,
      which may be a lone carriage return. */
  function EnginePlace(enc: Encoding, text: string, x: nat): D.Position
    requires x <= |text|
  {
    WidthGrows(enc, text, ColumnBegin(text, x), x);
    D.Position(Newlines(text, x), Width(enc, text, x) - Width(enc, text, ColumnBegin(text, x)))
  }

  /** No carriage return stands between the start of the line and `x`. */
  predicate NoReturnBefore(text: string, x: nat)
    requires x <= |text|
  {
    forall i :: LineBegin(text, x) <= i < x ==> text[i] != '\r'
  }

  /** Without one the engine's place is the wire's. */
  lemma {:induction false} PlainPlace(enc: Encoding, text: string, x: nat)
    requires x <= |text| && NoReturnBefore(text, x)
    ensures EnginePlace(enc, text, x) == D.PositionOf(enc, text, x)
  {
    var b := LineBegin(text, x);
    assert ColumnBegin(text, b) == b;
    SameColumnBegin(text, b, x);
  }

  /** What the pipeline measures for a consistent token is the engine's place. */
  lemma {:induction false} SiteIsEnginePlace(enc: Encoding, text: string, t: T.TokenPoint, k: nat)
    requires Consistent(text, t, k)
    ensures D.SitePosition(enc, text, Floor(text, t.si), t.ri, t.ci) == EnginePlace(enc, text, k)
  {
    FloorOfOffset(text, k);
    NewlinesGrow(text, k, |text|);
    D.SiteExactly(enc, text, k, t.ri, t.ci);
  }
}
