/** Text recognition with rotation retry: the photo is recognized at 0, 90,
    180 and 270 degrees in turn, and the first angle whose text passes the
    keyword check ends the search with success. */
module Recognizer {
  import opened Wrappers
  import opened TextMatch

  /** The rotations tried, in order, in degrees. */
  const Angles: seq<int> := [0, 90, 180, 270]

  /** What the recognizer reports for one rotated photo: `None` for the
      failure callback, `Some(text)` for the recognized full text. */
  type Outcome = Option<string>

  /** The outcome ends the search: recognition succeeded and the text holds
      every keyword. */
  predicate Hit(o: Outcome, keywords: seq<string>)
    ensures o.None? ==> !Hit(o, keywords)
    ensures o.Some? ==> (Hit(o, keywords) <==> forall k :: k in keywords ==> Occurs(Lowercase(o.value), k))
  {
    match o
    case Some(raw) => KeywordsFoundIff(raw, keywords); KeywordsFound(raw, keywords)
    case None => false
  }

  /** Some angle's outcome is a hit. */
  ghost predicate AnyHit(outcomes: seq<Outcome>, keywords: seq<string>) {
    exists i :: 0 <= i < |outcomes| && Hit(outcomes[i], keywords)
  }

  /** Index `i` holds a hit and no earlier index does. */
  ghost predicate FirstHit(outcomes: seq<Outcome>, keywords: seq<string>, i: int) {
    && 0 <= i < |outcomes|
    && Hit(outcomes[i], keywords)
    && forall j :: 0 <= j < i ==> !Hit(outcomes[j], keywords)
  }

  /** The single result delivered to the caller, with the angles at which
      the recognizer was invoked, in invocation order. */
  datatype Recognition = Recognition(found: bool, tried: seq<int>)

  /** One step of the retry chain, starting at angle number `index`.
      A failure and a text without the keywords both move on to the next
      index; running out of angles delivers `false`. */
  function TryRecognize(outcomes: seq<Outcome>, keywords: seq<string>, index: nat): (r: Recognition)
    requires |outcomes| == |Angles|
    requires index <= |Angles|
    ensures index + |r.tried| <= |Angles|
    ensures r.tried == Angles[index..index + |r.tried|]
    ensures r.found ==> |r.tried| > 0 && Hit(outcomes[index + |r.tried| - 1], keywords)
    ensures forall j :: index <= j < index + |r.tried| - 1 ==> !Hit(outcomes[j], keywords)
    ensures !r.found ==> index + |r.tried| == |Angles|
    ensures !r.found ==> forall j :: index <= j < |Angles| ==> !Hit(outcomes[j], keywords)
    decreases |Angles| - index
  {
    if index >= |Angles| then
      Recognition(false, [])
    else
      if Hit(outcomes[index], keywords) then
        Recognition(true, [Angles[index]])
      else
        var rest := TryRecognize(outcomes, keywords, index + 1);
        Recognition(rest.found, [Angles[index]] + rest.tried)
  }

  /** `recognizeText`: the retry chain started at angle 0. */
  function Recognize(outcomes: seq<Outcome>, keywords: seq<string>): (r: Recognition)
    requires |outcomes| == |Angles|
    ensures 1 <= |r.tried| <= |Angles|
    ensures r.tried == Angles[..|r.tried|]
    ensures r.found <==> AnyHit(outcomes, keywords)
    ensures r.found ==> FirstHit(outcomes, keywords, |r.tried| - 1)
    ensures !r.found ==> r.tried == Angles
  {
    TryRecognize(outcomes, keywords, 0)
  }

  /** The search stops at the first matching angle: it succeeds, and the
      angles tried are exactly those up to and including that one. */
  lemma StopsAtFirstHit(outcomes: seq<Outcome>, keywords: seq<string>, i: int)
    requires |outcomes| == |Angles|
    requires FirstHit(outcomes, keywords, i)
    ensures Recognize(outcomes, keywords).found
    ensures Recognize(outcomes, keywords).tried == Angles[..i + 1]
  {
  }

  /** The result depends on the outcomes only through which of them are
      hits. */
  lemma {:induction false} SameHitsSameResult(a: seq<Outcome>, b: seq<Outcome>, keywords: seq<string>, index: nat)
    requires |a| == |Angles| && |b| == |Angles|
    requires index <= |Angles|
    requires forall i :: 0 <= i < |Angles| ==> (Hit(a[i], keywords) <==> Hit(b[i], keywords))
    ensures TryRecognize(a, keywords, index) == TryRecognize(b, keywords, index)
    decreases |Angles| - index
  {
    if index < |Angles| {
      SameHitsSameResult(a, b, keywords, index + 1);
    }
  }

  /** A recognizer failure at one angle has the same effect as recognized
      text that lacks a keyword. */
  lemma FailureActsAsMismatch(outcomes: seq<Outcome>, keywords: seq<string>, i: int, raw: string)
    requires |outcomes| == |Angles|
    requires 0 <= i < |Angles|
    requires !KeywordsFound(raw, keywords)
    ensures Recognize(outcomes[i := None], keywords) == Recognize(outcomes[i := Some(raw)], keywords)
  {
    SameHitsSameResult(outcomes[i := None], outcomes[i := Some(raw)], keywords, 0);
  }
}
