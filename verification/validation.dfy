/** The per-side validation policy of `checkSide`: which detectors run for
    a captured side and which single message the user sees. */
module Validation {
  import opened Wrappers
  import opened TextMatch
  import opened Recognizer

  datatype CardSide = Front | Back | Face

  /** The messages the policy can show. */
  datatype Message =
    | PassportValid      // "✅ Паспорт валидный"
    | CardTextNotFound   // "⛔ Текст ID-карты не найден"
    | FaceNotDetected    // "⛔ Лицо не обнаружено"
    | FaceDetected       // "✅ Лицо обнаружено"
    | PhotoLoadFailed    // "Не удалось загрузить фото"

  /** Which detectors were invoked: how many face detections ran, and at
      which angles text recognition was attempted. */
  datatype Trace = Trace(faceDetections: nat, anglesTried: seq<int>)

  datatype Verdict = Verdict(message: Message, trace: Trace)

  /** What the face detector reports: `None` for its failure callback,
      `Some(n)` for a list of `n` faces. */
  type FaceOutcome = Option<nat>

  const FrontKeywords: seq<string> := ["identity card", "republic of tajikistan", "id no"]
  const BackKeywords: seq<string> := ["address", "idtjk"]

  /** `checkFace`: a detector failure is delivered as an empty face list. */
  function FaceCount(detection: FaceOutcome): (faces: nat)
    ensures detection.None? ==> faces == 0
    ensures detection.Some? ==> faces == detection.value
  {
    detection.GetOr(0)
  }

  /** Text recognition followed by the valid / text-not-found message. */
  function TextVerdict(texts: seq<Outcome>, keywords: seq<string>, faceDetections: nat): (v: Verdict)
    requires |texts| == |Angles|
    ensures v.message == PassportValid <==> AnyHit(texts, keywords)
    ensures v.message == PassportValid || v.message == CardTextNotFound
    ensures 1 <= |v.trace.anglesTried| <= |Angles|
    ensures v.trace.anglesTried == Angles[..|v.trace.anglesTried|]
    ensures v.message == PassportValid ==> FirstHit(texts, keywords, |v.trace.anglesTried| - 1)
    ensures v.message == CardTextNotFound ==> v.trace.anglesTried == Angles
    ensures v.trace.faceDetections == faceDetections
  {
    var rec := Recognize(texts, keywords);
    Verdict(if rec.found then PassportValid else CardTextNotFound, Trace(faceDetections, rec.tried))
  }

  /** The verdict for one captured photo of `side`, given what the face
      detector and the recognizer (at each angle) report for it. */
  function CheckSide(side: CardSide, detection: FaceOutcome, texts: seq<Outcome>): (v: Verdict)
    requires |texts| == |Angles|
    ensures v.message != PhotoLoadFailed
    ensures |v.trace.anglesTried| <= |Angles|
    ensures v.trace.anglesTried == Angles[..|v.trace.anglesTried|]
    ensures v.trace.faceDetections == (if side == Back then 0 else 1)
    ensures side == Front && FaceCount(detection) == 0 ==>
              v.message == FaceNotDetected && v.trace.anglesTried == []
    ensures side == Front && FaceCount(detection) > 0 ==>
              && (v.message == PassportValid <==> AnyHit(texts, FrontKeywords))
              && (v.message == PassportValid || v.message == CardTextNotFound)
              && |v.trace.anglesTried| >= 1
              && (v.message == PassportValid ==> FirstHit(texts, FrontKeywords, |v.trace.anglesTried| - 1))
              && (v.message == CardTextNotFound ==> v.trace.anglesTried == Angles)
    ensures side == Back ==>
              && (v.message == PassportValid <==> AnyHit(texts, BackKeywords))
              && (v.message == PassportValid || v.message == CardTextNotFound)
              && |v.trace.anglesTried| >= 1
              && (v.message == PassportValid ==> FirstHit(texts, BackKeywords, |v.trace.anglesTried| - 1))
              && (v.message == CardTextNotFound ==> v.trace.anglesTried == Angles)
    ensures side == Face ==>
              && (v.message == FaceDetected <==> FaceCount(detection) > 1)
              && (v.message == FaceDetected || v.message == FaceNotDetected)
              && v.trace.anglesTried == []
  {
    match side
    case Front =>
      if FaceCount(detection) == 0 then Verdict(FaceNotDetected, Trace(1, []))
      else TextVerdict(texts, FrontKeywords, 1)
    case Back =>
      TextVerdict(texts, BackKeywords, 0)
    case Face =>
      Verdict(if FaceCount(detection) > 1 then FaceDetected else FaceNotDetected, Trace(1, []))
  }

  /** A face-detector failure gives the same verdict as zero faces found. */
  lemma FaceFailureActsAsNoFace(side: CardSide, texts: seq<Outcome>)
    requires |texts| == |Angles|
    ensures CheckSide(side, None, texts) == CheckSide(side, Some(0), texts)
  {
  }

  /** FRONT with no face: the recognizer outcomes play no part. */
  lemma FrontNoFaceIgnoresText(detection: FaceOutcome, a: seq<Outcome>, b: seq<Outcome>)
    requires |a| == |Angles| && |b| == |Angles|
    requires FaceCount(detection) == 0
    ensures CheckSide(Front, detection, a) == CheckSide(Front, detection, b)
  {
  }

  /** BACK: the face detector's outcome plays no part. */
  lemma BackIgnoresFaces(d1: FaceOutcome, d2: FaceOutcome, texts: seq<Outcome>)
    requires |texts| == |Angles|
    ensures CheckSide(Back, d1, texts) == CheckSide(Back, d2, texts)
  {
  }

  /** FACE: the recognizer outcomes play no part. */
  lemma FaceIgnoresText(detection: FaceOutcome, a: seq<Outcome>, b: seq<Outcome>)
    requires |a| == |Angles| && |b| == |Angles|
    ensures CheckSide(Face, detection, a) == CheckSide(Face, detection, b)
  {
  }

  /** The keyword lists are written in lower case, so lower-casing the
      recognized text can let them match. */
  lemma KeywordsAreLowerCase()
    ensures forall i, j :: 0 <= i < |FrontKeywords| && 0 <= j < |FrontKeywords[i]| ==> !IsUpper(FrontKeywords[i][j])
    ensures forall i, j :: 0 <= i < |BackKeywords| && 0 <= j < |BackKeywords[i]| ==> !IsUpper(BackKeywords[i][j])
  {
  }

  /** The three front-side phrases as they may appear on the card. */
  function FrontText(t0: string, t1: string, t2: string, t3: string): string {
    t0 + "Identity Card" + t1 + "Republic of Tajikistan" + t2 + "ID No" + t3
  }

  /** Lower-casing a front-side text lower-cases the text around the
      phrases and turns the phrases into the front keywords. */
  lemma FrontTextLowercase(t0: string, t1: string, t2: string, t3: string)
    ensures Lowercase(FrontText(t0, t1, t2, t3))
         == Lowercase(t0) + FrontKeywords[0] + Lowercase(t1) + FrontKeywords[1]
          + Lowercase(t2) + FrontKeywords[2] + Lowercase(t3)
  {
    assert Lowercase("Identity Card") == FrontKeywords[0];
    assert Lowercase("Republic of Tajikistan") == FrontKeywords[1];
    assert Lowercase("ID No") == FrontKeywords[2];
    LowercaseAppend(t0 + "Identity Card" + t1 + "Republic of Tajikistan" + t2 + "ID No", t3);
    LowercaseAppend(t0 + "Identity Card" + t1 + "Republic of Tajikistan" + t2, "ID No");
    LowercaseAppend(t0 + "Identity Card" + t1 + "Republic of Tajikistan", t2);
    LowercaseAppend(t0 + "Identity Card" + t1, "Republic of Tajikistan");
    LowercaseAppend(t0 + "Identity Card", t1);
    LowercaseAppend(t0, "Identity Card");
  }

  /** A front-side text passes the front keyword check. */
  lemma FrontTextFound(t0: string, t1: string, t2: string, t3: string)
    ensures KeywordsFound(FrontText(t0, t1, t2, t3), FrontKeywords)
  {
    FrontTextLowercase(t0, t1, t2, t3);
    ThreeKeysBetween(Lowercase(t0), FrontKeywords[0], Lowercase(t1), FrontKeywords[1],
                     Lowercase(t2), FrontKeywords[2], Lowercase(t3));
  }

  /** FRONT, at least one face, and some angle reads the three front-side
      phrases as `FrontText` writes them, with any text around them: valid. */
  lemma FrontAcceptsCardText(faces: nat, texts: seq<Outcome>, i: int, t0: string, t1: string, t2: string, t3: string)
    requires faces >= 1
    requires |texts| == |Angles| && 0 <= i < |Angles|
    requires texts[i] == Some(FrontText(t0, t1, t2, t3))
    ensures CheckSide(Front, Some(faces), texts).message == PassportValid
  {
    FrontTextFound(t0, t1, t2, t3);
    assert Hit(texts[i], FrontKeywords);
  }

  /** The concrete front-side reading: one face and, upright, the text
      "This is an Identity Card issued by Republic of Tajikistan, ID No
      12345". */
  lemma FrontScenario()
    ensures CheckSide(Front, Some(1),
              [Some(FrontText("This is an ", " issued by ", ", ", " 12345")), None, None, None]).message
            == PassportValid
  {
    FrontAcceptsCardText(1, [Some(FrontText("This is an ", " issued by ", ", ", " 12345")), None, None, None],
      0, "This is an ", " issued by ", ", ", " 12345");
  }

  /** BACK, the text "no relevant fields here" at every angle: rejected,
      after all four angles were tried. The text is a parameter fixed by
      the precondition: a literal written into the goal itself makes the
      verifier unfold the recursive string functions on it. */
  lemma BackScenario(raw: string)
    requires raw == "no relevant fields here"
    ensures CheckSide(Back, None, [Some(raw), Some(raw), Some(raw), Some(raw)]).message == CardTextNotFound
    ensures CheckSide(Back, None, [Some(raw), Some(raw), Some(raw), Some(raw)]).trace.anglesTried == Angles
  {
    assert forall j :: 0 <= j < |raw| ==> raw[j] != 'j' && raw[j] != 'J';
    LetterAbsentAfterLowercase(raw, 'j');
    MissingCharNotContained(Lowercase(raw), BackKeywords[1], 'j');
    var texts: seq<Outcome> := [Some(raw), Some(raw), Some(raw), Some(raw)];
    assert !Hit(texts[0], BackKeywords);
  }

  /** FACE: zero and one face are rejected, two faces are accepted. */
  lemma FaceScenarios(texts: seq<Outcome>)
    requires |texts| == |Angles|
    ensures CheckSide(Face, Some(0), texts).message == FaceNotDetected
    ensures CheckSide(Face, Some(1), texts).message == FaceNotDetected
    ensures CheckSide(Face, Some(2), texts).message == FaceDetected
  {
  }
}
