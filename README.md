# digit-recognizer-bot: the pixel-grid core in Dafny

The bot recognises a handwritten digit in a photo. It normalises the image in the
style of MNIST and sends the pixels to an Azure ML Studio scoring endpoint. This
project models the integer logic of that pipeline and proves what it computes:

- `Pixels.dfy`: RGB pixels of bytes, the background/foreground palette
  (white and black for the parameterless constructor; the two-colour constructor
  is a `Palette` value passed to `Preprocess`), and the integer intensity formulas
  `(R + G + B) / 3` and `255 - (R + G + B) / 3`.
- `Preprocessor.dfy`: the bounding-box search of `ImagePreprocessor`. Its local
  helper `F` is one generic scan, `ScanLines`, parameterised by axis (columns or
  rows) and direction. `FindBoundingBox` makes the four calls and builds the
  rectangle. The file also holds the two feature exporters (`ConvertImageToArray`
  and `ConvertImageToTwoDimensionalArray`) and `Preprocess`, which is modelled at
  the level of image sizes.
- `Recognizer.dfy`: the feature dictionary that `PrepareMLStudioInput` builds
  (`"Label"` and `"f0"`, `"f1"`, ...), and the `Prediction` built from the
  endpoint's reply.
- `Decimal.dfy`: the decimal text of an `int`, as string interpolation writes it,
  and the parse `Convert.ToInt32` applies to a string.
- `Results.dfy`: a result type for operations that can fail.

An image is an `array2<Pixel>` indexed `img[x, y]`, as the image library indexes
it. `Length0` is the width and `Length1` the height. The scans only read the
image: `ScanLines` and `FindBoundingBox` have no `modifies` clause.

## What the scans return

A scan does not return the first line that holds ink. It returns the last
all-background line before it, starting from 0. The model keeps this behaviour,
and the predicate `IsScanResult` states it:

- When the first line a scan visits holds ink, the result is 0. This also holds for
  the backward scans, whose first line is the last one.
- On an image with no ink, the forward scans end at `W - 1` and `H - 1` and the
  backward scans at 0. The rectangle is then `(W - 1, H - 1, 1 - W, 1 - H)`.
- Ink in the last column (or row) makes the right (or bottom) edge 0, so the width
  (or height) is not positive although the image holds ink.
- Otherwise the rectangle contains every ink pixel. Its right and bottom edges are
  exclusive. Its left and top edges are the blank line just before the first ink
  line. A 10 x 10 square at (5, 5) in a blank 50 x 50 image therefore gets the box
  (4, 4, 11, 11). A tight box would be (5, 5, 10, 10). The model follows the code.

The source passes the rectangle straight to the crop filter. The model instead
reports the two degenerate cases as explicit outcomes of `Preprocess`:
`EmptyImage` when no pixel differs from the background, and `DegenerateBox` when
the rectangle has a non-positive side. It detects the empty image from the
rectangle alone, with no extra pass over the pixels. The rectangle equals
`(W - 1, H - 1, 1 - W, 1 - H)`, and the image is not a single ink pixel.
`EmptyImageDetected` proves that this test holds exactly when the image is all
background.

The two-dimensional exporter divides by 255 in integer arithmetic before it
converts to `double`. Every cell is therefore exactly 0.0 or 1.0: 1.0 only for a
pixel whose grey level is 0. A real-valued `v / 255` would give other values. The
model follows the code and represents `double` by `real`.

## Model

| member | source | states |
|---|---|---|
| Pixels.IsInk | digit-recognizer-bot/Graphics/ImagePreprocessor.cs:109-110 | a pixel is ink exactly when at least one of its channels differs from the configured background colour |
| Pixels.DefaultPaletteInk | digit-recognizer-bot/Graphics/ImagePreprocessor.cs:24-27 | the parameterless preprocessor's palette is a white background and black ink; under it a pixel is ink exactly when its exported feature is not 0, and pure black is ink |
| Pixels.Intensity | digit-recognizer-bot/Graphics/ImagePreprocessor.cs:133 | the grey level is the channel sum divided by 3 and rounded down, so it lies in 0..255 |
| Pixels.InvertedIntensity | digit-recognizer-bot/Graphics/ImagePreprocessor.cs:133 | the exported feature lies in 0..255; it is 0 exactly for pure white and 255 exactly when the channel sum is at most 2 (pure black included) |
| Pixels.Binarized | digit-recognizer-bot/Graphics/ImagePreprocessor.cs:148 | because 255 divides in integer arithmetic, the cell value is 1.0 when the grey level is 0 and 0.0 otherwise |
| Preprocessor.ScanLines | digit-recognizer-bot/Graphics/ImagePreprocessor.cs:101-122 | the scan returns the last blank line before the first ink line, or 0 when the first line it visits holds ink or the image has no lines; the result lies in [0, n - 1] |
| Preprocessor.FindBoundingBox | digit-recognizer-bot/Graphics/ImagePreprocessor.cs:85-99 | left and top come from the forward scans; x + width and y + height are the results of the backward scans |
| Preprocessor.ScanResultUnique | digit-recognizer-bot/Graphics/ImagePreprocessor.cs:101-122 | a scan result is determined by the image: two results that meet the scan's specification are equal |
| Preprocessor.BoxCornersInImage | digit-recognizer-bot/Graphics/ImagePreprocessor.cs:88-99 | on an image with at least one pixel, all four edges of the rectangle lie inside the image |
| Preprocessor.EmptyImageBox | digit-recognizer-bot/Graphics/ImagePreprocessor.cs:99-122 | with no ink, the rectangle is (W - 1, H - 1, 1 - W, 1 - H): width and height are never positive |
| Preprocessor.EmptyImageDetected | digit-recognizer-bot/Graphics/ImagePreprocessor.cs:99-122 | the rectangle signals an empty image if and only if every pixel is the background colour |
| Preprocessor.FarEdgeInkCollapsesBox | digit-recognizer-bot/Graphics/ImagePreprocessor.cs:94-99 | ink in the last column (row) makes the right (bottom) edge 0 and the width (height) non-positive |
| Preprocessor.BoxEnclosesInk | digit-recognizer-bot/Graphics/ImagePreprocessor.cs:85-122 | with ink clear of the last column and row, the rectangle has positive size, lies inside the image and contains every ink pixel; its far edges are the last ink lines and its near edges are the blank line before the first ink line (or 0) |
| Preprocessor.FlatFeature | digit-recognizer-bot/Graphics/ImagePreprocessor.cs:128-135 | feature number i of the row-major flattening lies in 0..255 |
| Preprocessor.FlatFeatureAt | digit-recognizer-bot/Graphics/ImagePreprocessor.cs:129-134 | index j * W + k lies below W * H, and its feature is the inverted intensity of pixel (k, j) |
| Preprocessor.RowStartProduct | digit-recognizer-bot/Graphics/ImagePreprocessor.cs:128-136 | counting on by one per pixel, the running index starts row j at j * W |
| Preprocessor.ConvertImageToArray | digit-recognizer-bot/Graphics/ImagePreprocessor.cs:125-139 | the result is a new array of 784 entries; entry t is feature t of the flattened image for t < W * H and 0 after that; every entry lies in 0..255 |
| Preprocessor.ConvertRow | digit-recognizer-bot/Graphics/ImagePreprocessor.cs:131-135 | one pass of the inner loop writes row j's features at the running index, advances it by W and leaves later entries untouched |
| Preprocessor.ConvertImageToTwoDimensionalArray | digit-recognizer-bot/Graphics/ImagePreprocessor.cs:141-153 | the result is a new 28 x 28 array; cell [j, k] is the binarised value of pixel (k, j) inside the image and 0.0 outside it; every cell is 0.0 or 1.0 |
| Preprocessor.Preprocess | digit-recognizer-bot/Graphics/ImagePreprocessor.cs:57-83 | the outcome is EmptyImage exactly for an all-background image; a degenerate rectangle is reported, not cropped; otherwise the crop has the rectangle's size inside the image, the square side is max(width, height), then 20 x 20 and finally 28 x 28; ink clear of the far edges always normalises |
| Decimal.NatToString | digit-recognizer-bot/Services/MLStudioDigitRecognizer.cs:79 | the decimal text of a number is non-empty, all digits, and has no leading zero unless it is "0" |
| Decimal.NatToStringRoundTrip | digit-recognizer-bot/Services/MLStudioDigitRecognizer.cs:79 | reading the decimal text back gives the number |
| Decimal.NatToStringInjective | digit-recognizer-bot/Services/MLStudioDigitRecognizer.cs:79 | different numbers have different texts |
| Decimal.ParseInt32 | digit-recognizer-bot/Services/MLStudioDigitRecognizer.cs:63 | text that is one optional sign and at least one digit is accepted with its signed value when that fits in 32 bits and is an overflow otherwise; any other text, a bare sign included, is a format error |
| Decimal.ParseLeadingZero | digit-recognizer-bot/Services/MLStudioDigitRecognizer.cs:63 | a leading zero changes nothing: "0" followed by digits d parses as d does |
| Decimal.ParsePlusSign | digit-recognizer-bot/Services/MLStudioDigitRecognizer.cs:63 | a leading plus sign changes nothing: "+" followed by digits d parses as d does |
| Decimal.FormatInt32 | digit-recognizer-bot/Services/MLStudioDigitRecognizer.cs:59-63 | stands for the text the endpoint returns for a scored label (an int written in decimal): it is well-formed integer text that denotes the int, with a minus sign exactly when it is negative |
| Decimal.ParseFormatRoundTrip | digit-recognizer-bot/Services/MLStudioDigitRecognizer.cs:63 | parsing the text of any 32-bit integer gives it back |
| Recognizer.FeatureKeySpells | digit-recognizer-bot/Services/MLStudioDigitRecognizer.cs:79 | the key of pixel i is "f" followed by decimal digits that read back as i |
| Recognizer.FeatureKeyDistinct | digit-recognizer-bot/Services/MLStudioDigitRecognizer.cs:72-79 | no key "f{i}" equals "Label", and different indices give different keys |
| Recognizer.FeatureKeysCount | digit-recognizer-bot/Services/MLStudioDigitRecognizer.cs:74-82 | the first n keys are n distinct strings, none of them "Label" |
| Recognizer.FeatureKeyNew | digit-recognizer-bot/Services/MLStudioDigitRecognizer.cs:79-80 | the key written at index i was not written before, so no pixel overwrites another |
| Recognizer.InputMapEntries | digit-recognizer-bot/Services/MLStudioDigitRecognizer.cs:71-82 | after n pixels the dictionary holds exactly "Label" and f0 ... f(n-1); "Label" stays 0 and each f{t} holds feature t |
| Recognizer.InputMapComplete | digit-recognizer-bot/Services/MLStudioDigitRecognizer.cs:71-82 | the finished dictionary has exactly W * H + 1 entries, with key set {"Label"} plus f0 ... f(W*H-1) |
| Recognizer.PrepareMLStudioInput | digit-recognizer-bot/Services/MLStudioDigitRecognizer.cs:69-82 | the nested loops build exactly that dictionary: "Label" maps to 0, f{i} maps to feature i (the same value as entry i of ConvertImageToArray), and there are W * H + 1 entries |
| Recognizer.AddRow | digit-recognizer-bot/Services/MLStudioDigitRecognizer.cs:77-81 | one pass of the inner loop adds row j's W keys at the running index |
| Recognizer.PredictionFromOutput | digit-recognizer-bot/Services/MLStudioDigitRecognizer.cs:59-65 | with no output rows the tag is null and converts to 0; a first row without "Scored Labels" fails with a missing key, and only such a row does; otherwise the tag is the signed value of that text, ill-formed text is a format error and well-formed text outside the 32-bit range an overflow; every prediction has probability 1 |
| Recognizer.PredictionOfWellFormedLabel | digit-recognizer-bot/Services/MLStudioDigitRecognizer.cs:59-65 | a first row whose label text is well-formed and fits in 32 bits always yields a prediction, whose tag is the value of that text and whose probability is 1 |
| Recognizer.PredictionOfScoredLabel | digit-recognizer-bot/Services/MLStudioDigitRecognizer.cs:59-65 | a first row that scores the integer n yields the prediction (n, 1) |

## Left out

- The image library's operations are left out, because their code is not part of this model: `Image.Load`, `SaveAsPng`, `Grayscale`, `Vignette`, `BinaryThreshold(0.6, ...)`, `Crop`, `Pad` and `Resize`. The model's input to `Preprocess` is the image after the threshold step. Crop, pad and resize appear only through the sizes they produce.
- Preprocess: requires an image of at least one pixel in each direction, because the image library never holds an empty image. Where the source would hand a degenerate rectangle to `Crop`, which throws, the model returns `EmptyImage` or `DegenerateBox`.
- Preprocess: the byte-array overload only decodes and re-encodes PNG, so it is left out.
- ConvertImageToArray: requires W * H <= 784. For a larger image the source throws an index-out-of-range exception. The pipeline always delivers a 28 x 28 image.
- ConvertImageToTwoDimensionalArray: requires W <= 28 and H <= 28. For a larger image the source throws an index-out-of-range exception. The pipeline always delivers a 28 x 28 image.
- IsInk: compares only the RGB channels, because the model's pixels carry no alpha channel and no intensity formula uses it. The source's `!=` also compares alpha, so a pixel that differs from the background only in alpha is ink in the source but not in the model.
- The HTTP request, the bearer header and the JSON serialisation of the request and of the reply are I/O and library code, so they are left out. `PrepareMLStudioInput` returns the dictionary instead of its JSON text. `PredictionFromOutput` takes the decoded rows of `WebServiceOutput0`.
- PredictionFromOutput: null values are not modelled, because the decoded rows are non-null maps of strings. In the source, a null first row gives a null tag through `?[...]`, which `Convert.ToInt32` turns into 0. A null "Scored Labels" value also converts to 0. A null `results` object throws `NullReferenceException`, and a null `WebServiceOutput0` list makes `FirstOrDefault` throw `ArgumentNullException`.
- ParseInt32: white space around the digits (" 7", "7 ") and culture-specific sign symbols, which `Convert.ToInt32` accepts, are format errors in the model. It accepts only one optional ASCII sign followed by ASCII digits.
- `PrintImageToConsole` is console output, so it is left out.
- `EchoBot`, the recogniser's configuration class, the `IDigitRecognizer` interface and `Prediction.ToString` are chat glue or property bags with no logic of their own, so they are left out.
- The palette's foreground colour is used only by the threshold filter, which is outside this model. Both pad filters fill with the background colour.
