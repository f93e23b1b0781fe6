# Identity card checker: validation policy

The app photographs the front of a Tajik identity card, its back, or a
face. On-device face detection and text recognition then decide which
single message the user sees. This project models that decision logic from
`MainActivity.kt`:

- **Keyword match.** The recognized text is lower-cased. It passes only if
  every keyword of the side is a substring of it (`TextMatch`).
- **Rotation retry.** Text recognition runs at 0, 90, 180 and 270 degrees,
  in that order. It stops at the first angle whose text matches. A
  recognizer failure just moves on to the next angle. The result is `false`
  only after all four angles are used up (`Recognizer`).
- **Per-side verdict.** FRONT needs at least one face, then the front
  keywords. BACK needs the back keywords only. FACE needs more than one face
  (`Validation`).
- **Camera-result gate.** A non-OK camera result shows nothing. An OK result
  whose photo cannot be loaded shows only the load-failure message. Any
  other result goes on to the side check (`Capture`).

The ML engines are not modelled. They become inputs instead:
- The face detector's outcome is an `Option<nat>`. `None` is its failure
  callback and `Some(n)` is a list of `n` faces.
- The recognizer's outcomes are a sequence of four `Option<string>`, one
  for each angle. `None` is a failure and `Some(t)` is the full recognized
  text.

Every verdict carries a trace: how many face detections ran and at which
angles recognition was attempted. This lets the model state "never invoked"
and "at most four attempts".

The front keywords are `"identity card"`, `"republic of tajikistan"` and
`"id no"` (`MainActivity.kt` line 129). A camera result other than OK shows
no message at all (line 28).

## Model

| member | source | states |
|---|---|---|
| TextMatch.Lowercase | app/src/main/java/tj/itservice/identifycardcheker/MainActivity.kt:111 | the lower-cased text has the same length, contains no capital letters, keeps every non-capital character, and maps each capital to its small letter |
| TextMatch.LowercaseIdempotent | app/src/main/java/tj/itservice/identifycardcheker/MainActivity.kt:111 | lower-casing an already lower-cased text changes nothing |
| TextMatch.ContainsIffOccurs | app/src/main/java/tj/itservice/identifycardcheker/MainActivity.kt:112 | the left-to-right substring scan answers true exactly when the key occurs at some position of the text (both directions) |
| TextMatch.MissingCharNotContained | app/src/main/java/tj/itservice/identifycardcheker/MainActivity.kt:112 | a key that holds a character missing from the text is not contained in it |
| TextMatch.Contains | app/src/main/java/tj/itservice/identifycardcheker/MainActivity.kt:112 | Kotlin's `text.contains(keyword)`: the empty key is contained in every text, and a key longer than the text never is |
| TextMatch.MatchesAll | app/src/main/java/tj/itservice/identifycardcheker/MainActivity.kt:112 | `keywords.all { text.contains(it) }` holds iff every keyword of the list is contained in the text |
| TextMatch.KeywordsFound | app/src/main/java/tj/itservice/identifycardcheker/MainActivity.kt:111-112 | the check on recognized text passes iff every keyword is contained in the lower-cased text; with an empty keyword list it always passes |
| TextMatch.KeywordsFoundIff | app/src/main/java/tj/itservice/identifycardcheker/MainActivity.kt:111-112 | the check passes iff every keyword occurs as a substring of the lower-cased text, against the position-based meaning of substring |
| TextMatch.KeywordsFoundIgnoresCase | app/src/main/java/tj/itservice/identifycardcheker/MainActivity.kt:111 | a recognized text and its lower-cased form give the same verdict |
| TextMatch.CapitalKeywordNeverFound | app/src/main/java/tj/itservice/identifycardcheker/MainActivity.kt:111-112 | a keyword with a capital letter can never be found, whatever the text, because the text is lower-cased first |
| Recognizer.Hit | app/src/main/java/tj/itservice/identifycardcheker/MainActivity.kt:110-113 | an attempt ends the search only when recognition succeeded and every keyword occurs in the lower-cased text; a failure callback is never a hit |
| Recognizer.TryRecognize | app/src/main/java/tj/itservice/identifycardcheker/MainActivity.kt:103-117 | started at index `k`, the chain attempts the angles `Angles[k..]` in order; on success the last attempted angle is a hit and every earlier one is not; on `false` every angle from `k` on was attempted and none was a hit |
| Recognizer.Recognize | app/src/main/java/tj/itservice/identifycardcheker/MainActivity.kt:92-120 | one to four attempts, always a prefix of 0, 90, 180, 270; the result is true iff some angle's outcome is a hit; on true the last attempted angle is the first hit; on false all four angles were attempted |
| Recognizer.StopsAtFirstHit | app/src/main/java/tj/itservice/identifycardcheker/MainActivity.kt:110-115 | when angle `i` is the first hit, recognition succeeds and the angles attempted are exactly those up to `i`, so no later angle is tried |
| Recognizer.SameHitsSameResult | app/src/main/java/tj/itservice/identifycardcheker/MainActivity.kt:110-116 | two outcome sequences with hits at the same angles give the same result and the same attempts |
| Recognizer.FailureActsAsMismatch | app/src/main/java/tj/itservice/identifycardcheker/MainActivity.kt:114-116 | a recognizer failure at one angle has the same effect as text at that angle that lacks a keyword |
| Validation.FaceCount | app/src/main/java/tj/itservice/identifycardcheker/MainActivity.kt:84-89 | `checkFace` delivers the detector's face list on success and an empty list on failure: a failure counts as zero faces |
| Validation.TextVerdict | app/src/main/java/tj/itservice/identifycardcheker/MainActivity.kt:130-133 | the message is "passport valid" iff some angle's text holds every keyword, and "card text not found" otherwise; on "passport valid" the attempts run up to and including the first matching angle; on "card text not found" all four angles were attempted |
| Validation.CheckSide | app/src/main/java/tj/itservice/identifycardcheker/MainActivity.kt:123-145 | the per-side table: FRONT with no face shows "face not detected" and attempts no recognition; FRONT with a face is valid iff the front keywords are found at some angle; BACK runs no face detection and is valid iff the back keywords are found at some angle; in both text cases the attempts stop at the first matching angle, or cover all four angles when none matches; FACE shows "face detected" iff more than one face was found and attempts no recognition |
| Validation.FaceFailureActsAsNoFace | app/src/main/java/tj/itservice/identifycardcheker/MainActivity.kt:84-89 | for every side, a face-detector failure gives the same verdict and trace as zero faces found |
| Validation.FrontNoFaceIgnoresText | app/src/main/java/tj/itservice/identifycardcheker/MainActivity.kt:124-128 | FRONT with no face: the verdict does not depend on the recognizer's outcomes |
| Validation.BackIgnoresFaces | app/src/main/java/tj/itservice/identifycardcheker/MainActivity.kt:136-139 | BACK: the verdict does not depend on the face detector's outcome |
| Validation.FaceIgnoresText | app/src/main/java/tj/itservice/identifycardcheker/MainActivity.kt:141-144 | FACE: the verdict does not depend on the recognizer's outcomes |
| Validation.KeywordsAreLowerCase | app/src/main/java/tj/itservice/identifycardcheker/MainActivity.kt:129 | no front or back keyword contains a capital letter, so each can match lower-cased text |
| Validation.FrontTextFound | app/src/main/java/tj/itservice/identifycardcheker/MainActivity.kt:129-130 | any text with "Identity Card", "Republic of Tajikistan" and "ID No" in that order, in any surrounding text, passes the front keyword check |
| Validation.FrontAcceptsCardText | app/src/main/java/tj/itservice/identifycardcheker/MainActivity.kt:124-133 | FRONT with at least one face and such a text at any angle gives "passport valid" |
| Validation.FrontScenario | app/src/main/java/tj/itservice/identifycardcheker/MainActivity.kt:124-133 | one face plus, upright, "This is an Identity Card issued by Republic of Tajikistan, ID No 12345" gives "passport valid" |
| Validation.BackScenario | app/src/main/java/tj/itservice/identifycardcheker/MainActivity.kt:136-139 | BACK with "no relevant fields here" at every angle gives "card text not found" after all four angles were attempted |
| Validation.FaceScenarios | app/src/main/java/tj/itservice/identifycardcheker/MainActivity.kt:141-144 | FACE with zero or one face gives "face not detected"; with two faces it gives "face detected" |
| Capture.OnCameraResult | app/src/main/java/tj/itservice/identifycardcheker/MainActivity.kt:27-33 | a non-OK camera result shows nothing; an OK result with no loaded photo shows only the load-failure message and runs no detector; otherwise the side check's verdict is shown; the load-failure message appears only in that one case |

## Left out

- Activity lifecycle, view binding and click listeners (lines 40-48) are UI wiring.
- The camera intent, the `FileProvider` URI and the per-side file name (lines 62-69) are platform I/O. The side chosen when the camera was opened is passed as a parameter.
- Bitmap decoding (`loadBitmapFromUri`, lines 51-60) is image I/O. Its result is an optional photo.
- Bitmap rotation through `Matrix` (lines 96-101) is raster work. A rotation is modelled only as the next index in the outcome sequence.
- The ML Kit face detector and text recognizer, and their options (lines 75-81, 94), are foreign engines. Their outcomes are inputs.
- Asynchrony, callback scheduling and the shared `currentSide` flag (lines 36, 63) are left out. Callbacks are treated as sequential. Each engine call delivers exactly one outcome, so each check delivers exactly one message. Overlapping captures are not modelled.
- TextMatch.Lowercase: models ASCII lower-casing only, not Kotlin's Unicode-aware `lowercase()`. The verdict can therefore differ on recognized text with non-ASCII characters that Kotlin lower-cases to ASCII letters. For example, U+212A KELVIN SIGN becomes `k`, so such text can match "tajikistan" or "idtjk" in the app but not in the model.
- The `Toast` display (lines 147-149) is not modelled. Messages are an enumeration, and each constructor's comment gives the source's text, including its "✅ " or "⛔ " prefix.
