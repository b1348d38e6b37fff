/** From a lexer trace to the client's tokens (rs/src/semantic.rs, `semantic_tokens_data`): the
    trace is reconciled against the text, cut into segments, guarded, and delta-encoded. */
module TokenPipeline {
  import opened Wrappers
  import opened Semantic
  import opened DeltaEncoding
  import T = Trace
  import A = Anchor
  import F = GuardFacts

  /** The pieces of every coloured token of a trace, empty ones left out. */
  ghost function Coloured(text: string, kindOf: string -> Option<nat>, events: seq<T.TokenPoint>): seq<Segment> {
    F.NonEmpty(AllPieces(text, kindOf, A.ReconciledIn(events, text)))
  }

  /** What the guard leaves of the pieces of a trace. */
  function Emitted(text: string, kindOf: string -> Option<nat>, events: seq<T.TokenPoint>): seq<Segment> {
    After(START, AllPieces(text, kindOf, A.ReconciledIn(events, text))).out
  }

  /** `semantic_tokens_data`: for values that fit the wire, the client decodes exactly what the
      guard lets through. */
  method SemanticTokensData(
    events: seq<T.TokenPoint>, kindOf: string -> Option<nat>, text: string) returns (data: seq<nat>)
    ensures (forall s :: s in Emitted(text, kindOf, events) ==> Fits(s)) ==>
      Decoded(0, 0, data) == Wires(Tokens(Emitted(text, kindOf, events)))
  {
    var reconciled := A.ReconcileIn(events, text);
    var segments := Segments(reconciled, kindOf, text);
    var tokens := Tokens(segments);
    data := Encode(tokens);
    if forall s :: s in segments ==> Fits(s) {
      EverySegmentArrives(AllPieces(text, kindOf, reconciled));
    }
  }

  /** Losing nothing: when the reconciled tokens stand in the text one after the other with the
      engine's rows and columns, and no carriage return restarts a column, every non-empty piece of
      every coloured token is what the client decodes. */
  lemma {:induction false} NothingIsLost(
    events: seq<T.TokenPoint>, kindOf: string -> Option<nat>, text: string, ks: seq<nat>, data: seq<nat>)
    requires F.NoReturns(text) && F.InText(text, A.ReconciledIn(events, text), ks)
    requires forall s :: s in Coloured(text, kindOf, events) ==> Fits(s)
    requires Decoded(0, 0, data) == Wires(Tokens(Emitted(text, kindOf, events)))
    ensures Decoded(0, 0, data) == Wires(Tokens(Coloured(text, kindOf, events)))
  {
    F.GuardDropsNothing(text, kindOf, A.ReconciledIn(events, text), ks);
  }
}
