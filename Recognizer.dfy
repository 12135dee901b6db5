/** The ML Studio side of the recogniser: the feature dictionary sent to the
    scoring endpoint and the prediction built from its reply. */
module Recognizer {
  import opened Results
  import opened Pixels
  import opened Preprocessor
  import opened Decimal

  const LabelKey: string := "Label"
  const ScoredLabelsKey: string := "Scored Labels"

  /** The dictionary key of feature i: "f" followed by i in decimal. */
  function FeatureKey(i: nat): string
  {
    "f" + NatToString(i)
  }

  /** The key of feature i is "f" followed by digits that read back as i. */
  lemma FeatureKeySpells(i: nat)
    ensures |FeatureKey(i)| >= 2 && FeatureKey(i)[0] == 'f'
    ensures AllDigits(FeatureKey(i)[1..]) && DigitsValue(FeatureKey(i)[1..]) == i
  {
    NatToStringRoundTrip(i);
    assert FeatureKey(i)[1..] == NatToString(i);
  }

  /** Feature keys never collide with each other nor with the label key. */
  lemma FeatureKeyDistinct(a: nat, b: nat)
    ensures FeatureKey(a) != LabelKey
    ensures FeatureKey(a) == FeatureKey(b) ==> a == b
  {
    assert FeatureKey(a)[0] == 'f' != LabelKey[0];
    if FeatureKey(a) == FeatureKey(b) {
      assert NatToString(a) == FeatureKey(a)[1..] == FeatureKey(b)[1..] == NatToString(b);
      NatToStringInjective(a, b);
    }
  }

  /** The keys of the first n features. */
  function FeatureKeys(n: nat): set<string>
  {
    set i | 0 <= i < n :: FeatureKey(i)
  }

  /** The same set, built one key at a time as the loop builds it. The loop
      invariants use this form: it grows by one key per step, where the
      comprehension would make the solver reason about an existential. */
  function FeatureKeysUpTo(n: nat): set<string>
  {
    if n == 0 then {} else FeatureKeysUpTo(n - 1) + {FeatureKey(n - 1)}
  }

  /** Both descriptions of the first n keys agree. */
  lemma {:induction false} FeatureKeysAgree(n: nat)
    ensures FeatureKeysUpTo(n) == FeatureKeys(n)
  {
    if n > 0 {
      FeatureKeysAgree(n - 1);
      assert FeatureKeys(n) == FeatureKeys(n - 1) + {FeatureKey(n - 1)};
    }
  }

  /** The first n keys are n distinct strings, none of them the label key. */
  lemma {:induction false} FeatureKeysCount(n: nat)
    ensures |FeatureKeysUpTo(n)| == n
    ensures LabelKey !in FeatureKeysUpTo(n)
  {
    if n > 0 {
      FeatureKeysCount(n - 1);
      FeatureKeyDistinct(n - 1, n - 1);
      FeatureKeyNew(n - 1);
    }
  }

  /** Key n is not among the keys before it. */
  lemma FeatureKeyNew(n: nat)
    ensures FeatureKey(n) !in FeatureKeysUpTo(n)
  {
    forall i | 0 <= i < n
      ensures FeatureKey(i) != FeatureKey(n)
    {
      FeatureKeyDistinct(i, n);
    }
    FeatureKeysAgree(n);
  }

  /** The dictionary after the first n features have been added: the label
      entry, then "f<t>" mapped to feature t for every t < n, in order. */
  function InputMap(img: Image, n: nat): map<string, int>
    requires n <= img.Length0 * img.Length1
    reads img
  {
    if n == 0 then map[LabelKey := 0]
    else InputMap(img, n - 1)[FeatureKey(n - 1) := FlatFeature(img, n - 1)]
  }

  /** The first n features are in the dictionary with their values, next to
      the label entry, and nothing else is. */
  lemma {:induction false} InputMapEntries(img: Image, n: nat)
    requires n <= img.Length0 * img.Length1
    ensures InputMap(img, n).Keys == {LabelKey} + FeatureKeysUpTo(n)
    ensures InputMap(img, n)[LabelKey] == 0
    ensures forall t :: 0 <= t < n ==>
      FeatureKey(t) in InputMap(img, n) && InputMap(img, n)[FeatureKey(t)] == FlatFeature(img, t)
  {
    if n > 0 {
      InputMapEntries(img, n - 1);
      FeatureKeyDistinct(n - 1, n - 1);
      forall t | 0 <= t < n - 1
        ensures FeatureKey(t) != FeatureKey(n - 1)
      {
        FeatureKeyDistinct(t, n - 1);
      }
    }
  }

  /** The complete dictionary has W * H + 1 entries: the label and one
      distinct key per pixel. */
  lemma InputMapComplete(img: Image)
    ensures InputMap(img, img.Length0 * img.Length1).Keys == {LabelKey} + FeatureKeys(img.Length0 * img.Length1)
    ensures |InputMap(img, img.Length0 * img.Length1)| == img.Length0 * img.Length1 + 1
    ensures InputMap(img, img.Length0 * img.Length1)[LabelKey] == 0
    ensures forall t :: 0 <= t < img.Length0 * img.Length1 ==>
      FeatureKey(t) in InputMap(img, img.Length0 * img.Length1) &&
      InputMap(img, img.Length0 * img.Length1)[FeatureKey(t)] == FlatFeature(img, t)
  {
    var n := img.Length0 * img.Length1;
    InputMapEntries(img, n);
    FeatureKeysCount(n);
    FeatureKeysAgree(n);
    assert |InputMap(img, n).Keys| == |{LabelKey} + FeatureKeysUpTo(n)| == n + 1;
  }

  /** The request dictionary: "Label" mapped to 0 and, for every pixel in
      row-major order, "f<i>" mapped to the pixel's inverted intensity, so it
      holds exactly W * H + 1 entries. */
  method PrepareMLStudioInput(img: Image) returns (pixels: map<string, int>)
    ensures pixels == InputMap(img, img.Length0 * img.Length1)
    ensures pixels.Keys == {LabelKey} + FeatureKeys(img.Length0 * img.Length1)
    ensures |pixels| == img.Length0 * img.Length1 + 1
    ensures pixels[LabelKey] == 0
    ensures forall i :: 0 <= i < img.Length0 * img.Length1 ==>
      FeatureKey(i) in pixels && pixels[FeatureKey(i)] == FlatFeature(img, i)
  {
    pixels := map[LabelKey := 0];
    var width, height := img.Length0, img.Length1;
    var i := 0;
    for j := 0 to height
      invariant i == RowStart(j, width) <= width * height
      invariant pixels == InputMap(img, i)
    {
      RowStartWithin(img, j);
      pixels, i := AddRow(img, j, pixels, i);
    }
    RowStartProduct(height, width);
    InputMapComplete(img);
  }

  /** The inner loop of PrepareMLStudioInput: adds the keys of row j, counting
      on from the running index, which starts where row j starts. */
  method AddRow(img: Image, j: nat, pixels0: map<string, int>, i0: nat) returns (pixels: map<string, int>, i: nat)
    requires j < img.Length1 && i0 == RowStart(j, img.Length0)
    requires i0 + img.Length0 <= img.Length0 * img.Length1
    requires pixels0 == InputMap(img, i0)
    ensures i == i0 + img.Length0
    ensures pixels == InputMap(img, i)
  {
    pixels, i := pixels0, i0;
    for k := 0 to img.Length0
      invariant i == i0 + k
      invariant pixels == InputMap(img, i)
    {
      FlatFeatureInRow(img, j, k);
      pixels := pixels[FeatureKey(i) := 255 - ((img[k, j].r + img[k, j].g + img[k, j].b) / 3)];
      i := i + 1;
    }
  }

  /** The recogniser's answer: the digit and a confidence. */
  datatype Prediction = Prediction(tag: int, probability: real)

  /** The exceptions that building a prediction can raise. */
  datatype PredictionError = KeyNotFound | Format | Overflow

  /** The prediction built from the rows of the endpoint's output table: the
      first row's "Scored Labels" converted to an int, with probability 1. With
      no rows the tag is null, which the conversion turns into 0. */
  function PredictionFromOutput(rows: seq<map<string, string>>): (r: Result<Prediction, PredictionError>)
    ensures rows == [] ==> r == Ok(Prediction(0, 1.0))
    ensures rows != [] ==> (r == Err(KeyNotFound) <==> ScoredLabelsKey !in rows[0])
    ensures r.Ok? ==> r.value.probability == 1.0 && Int32Min <= r.value.tag <= Int32Max
    ensures rows != [] && ScoredLabelsKey in rows[0] ==>
      var text := rows[0][ScoredLabelsKey];
      && (r == Err(Format) <==> !WellFormed(text))
      && (r == Err(Overflow) <==> WellFormed(text) && !(Int32Min <= SignedValue(text) <= Int32Max))
      && (r.Ok? ==> r.value.tag == SignedValue(text))
  {
    if rows == [] then Ok(Prediction(0, 1.0))
    else if ScoredLabelsKey !in rows[0] then Err(KeyNotFound)
    else match ParseInt32(rows[0][ScoredLabelsKey])
      case Ok(tag) => Ok(Prediction(tag, 1.0))
      case Err(FormatError) => Err(Format)
      case Err(OverflowError) => Err(Overflow)
  }

  /** A first row whose "Scored Labels" text is well-formed and in range always
      yields a prediction, and its tag is the value of that text. */
  lemma PredictionOfWellFormedLabel(rows: seq<map<string, string>>)
    requires rows != [] && ScoredLabelsKey in rows[0]
    requires WellFormed(rows[0][ScoredLabelsKey])
    requires Int32Min <= SignedValue(rows[0][ScoredLabelsKey]) <= Int32Max
    ensures PredictionFromOutput(rows) == Ok(Prediction(SignedValue(rows[0][ScoredLabelsKey]), 1.0))
  {
  }

  /** A reply whose first row scores the label n yields the prediction n. */
  lemma PredictionOfScoredLabel(n: int, rows: seq<map<string, string>>)
    requires Int32Min <= n <= Int32Max
    requires rows != [] && ScoredLabelsKey in rows[0] && rows[0][ScoredLabelsKey] == FormatInt32(n)
    ensures PredictionFromOutput(rows) == Ok(Prediction(n, 1.0))
  {
    ParseFormatRoundTrip(n);
  }
}
