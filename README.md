# UWP colour picker and tiled image panel, modelled in Dafny

This project models three pieces of the matatabi-ux UWP samples.

- **The `#AARRGGBB` colour-string codec** (`color_codec.dfy`, module `ColorCodec`).
  - `ColorConverter.Convert` maps null to `Colors.Transparent`. A colour name wins over hex parsing. Otherwise it reads four two-character hexadecimal pairs with `Convert.ToInt32(…, 16)` and `Convert.ToByte`, and falls back to `Transparent` on any exception.
  - `ConvertBack` always throws.
  - The parser inverts the `"#{0:X2}{1:X2}{2:X2}{3:X2}"` formatter: parsing a formatted colour gives the colour back. The converse does not hold, since "#ff00ff00" re-formats as "#FF00FF00".
- **The integer channel state machine of `ColorPickerViewModel`** (`color_picker.dfy`, module `ColorPicker`).
  - It is a class whose fields are the view model's fields: the colour string, the four channel integers, their decimal mirrors and the eight gradient endpoints.
  - Each generated property setter stores its value, then calls the matching `On…Changed` hook.
  - The `On*StringChanged` handlers parse decimal text or revert it. The `On*Changed` handlers re-parse the colour string, replace one channel through `(byte)Math.Max(0, v)` and `Math.Min`, and rewrite every field through `UpdateColor`.
  - `int.ToString` and `int.TryParse` are modelled in `decimal_text.dfy` (module `DecimalText`).
- **The tiling panel `ImageTile`** (`image_tile.dfy`, module `TiledImage`).
  - It is a class holding the `Source` property, `Children` as a sequence of image ids, the state of every image element (its source and its last arrange rectangle), the pending `sourceImage` and the `Clip`.
  - `ArrangeOverride` tiles the panel column by column. It reuses children by index, appends new images, removes the surplus in place and sets the clip.
  - The `sourceImage` lifecycle handlers are modelled too.

`wrappers.dfy` (module `Wrappers`) holds the `Option` and `Result` types.

The main results are these:

- **Codec.** `Convert` inverts the formatter for every colour, because no colour name starts with '#'. Its hexadecimal parse (`ParseArgb`) reads only positions 1..8, so two strings that are not colour names and agree there convert alike. A string that is not a colour name falls back to `Transparent` when it is short or malformed.
- **Channel handlers.** Each handler leaves the view model showing the colour obtained by replacing exactly one channel of the parsed current colour. A string handler takes the parsed value, or keeps the channel's current value. The re-entrant revert path through the string setter terminates.
- **Arrange.** When `Source` is a bitmap of non-zero pixel size, `ArrangeOverride` leaves exactly ceil(W/w)·ceil(H/h) children; otherwise the panel is unchanged. They are the old prefix followed by fresh images, and child `k` shows the bitmap at tile `k` of a column-major grid. The tiles cover the panel and do not overlap. Every other image is untouched.

Three details follow the code rather than a simpler reading of it:

- `Convert.ToInt32(s, 16)` accepts a leading '+', so a pair such as "+F" parses as 15 (`ColorCodec.SignedPair`, `ColorCodec.SignedPairsAccepted`).
- In the channel handlers, the `(byte)` cast happens before `Math.Min((byte)0xff, …)`. C#'s default unchecked context then makes values above 255 wrap modulo 256, and the `Min` never changes anything (`ColorPicker.NormalizeChannel`, `ColorPicker.ChannelWrapsAbove255`). The model keeps this behaviour as written.
- The failed and opened handlers dereference `sourceImage` without a null check. When it is null they throw a `NullReferenceException`, which the model reports as the outcome `NullReference`.

## Model

| member | source | states |
|---|---|---|
| ColorCodec.X2 | UWPColorPickerSample/ColorPickerViewModel.cs:58 | `{0:X2}` gives two upper-case hexadecimal digits whose value is the byte |
| ColorCodec.FormatArgb | UWPColorPickerSample/ColorPickerViewModel.cs:58 | the colour string is 9 characters: '#' followed by eight upper-case hexadecimal digits |
| ColorCodec.Convert | UWPColorPickerSample/ColorConverter.cs:33-63 | computes the converter: null gives `Transparent`; a name in the colour map gives its colour; otherwise the four parsed pairs, or `Transparent` when any of them fails |
| ColorCodec.ParseArgb | UWPColorPickerSample/ColorConverter.cs:50-61 | computes the `try` block: no colour below nine characters (a `Substring` throws), otherwise the colour of the pairs at 1, 3, 5, 7 when all four parse |
| ColorCodec.ParseHexInt | UWPColorPickerSample/ColorConverter.cs:53 | computes `Convert.ToInt32(p, 16)` on a two-character pair: '+' and one hex digit, or two hex digits of either case; a '-' or a "0x" prefix leaves no valid pair and fails |
| ColorCodec.ParsePair | UWPColorPickerSample/ColorConverter.cs:53-56 | computes `Convert.ToByte(Convert.ToInt32(s.Substring(i, 2), 16))`, failing when either conversion throws |
| ColorCodec.ToByte | UWPColorPickerSample/ColorConverter.cs:53-56 | `Convert.ToByte` succeeds exactly on 0..255 and keeps the value |
| ColorCodec.ConvertBack | UWPColorPickerSample/ColorConverter.cs:65-68 | `ConvertBack` always fails with NotSupported |
| ColorCodec.ParsedPairFitsByte | UWPColorPickerSample/ColorConverter.cs:53-56 | every pair `ToInt32(…, 16)` accepts is at most 0xFF, so `ToByte` never throws on it |
| ColorCodec.ConvertNull | UWPColorPickerSample/ColorConverter.cs:35-38 | a null value converts to `Transparent` (A=0x00, R=G=B=0xFF) |
| ColorCodec.ConvertNamed | UWPColorPickerSample/ColorConverter.cs:39-48 | a string that names a colour gives that colour, before any hexadecimal parsing |
| ColorCodec.ConvertHex | UWPColorPickerSample/ColorConverter.cs:52-56 | a non-name of length ≥ 9 with hex digits (either case) at 1..8 gives A, R, G, B from the pairs at 1, 3, 5, 7 |
| ColorCodec.ConvertShort | UWPColorPickerSample/ColorConverter.cs:50-62 | a non-name shorter than 9 characters throws inside the `try` and gives `Transparent` |
| ColorCodec.ConvertRejects | UWPColorPickerSample/ColorConverter.cs:50-62 | a character at 1..8 that is neither a hex digit nor a '+' opening its pair gives `Transparent` |
| ColorCodec.ParseArgbReadsOnlyPairs | UWPColorPickerSample/ColorConverter.cs:53-56 | strings agreeing on positions 1..8 parse alike: the first character and the tail are never read |
| ColorCodec.ConvertReadsOnlyPairs | UWPColorPickerSample/ColorConverter.cs:39-62 | two strings that are not colour names, of length ≥ 9 and agreeing on positions 1..8, convert to the same colour |
| ColorCodec.X2RoundTrip | UWPColorPickerSample/ColorConverter.cs:53 | a pair written by `{0:X2}` parses back to its byte |
| ColorCodec.FormatArgbPairs | UWPColorPickerSample/ColorPickerViewModel.cs:58 | the pairs at positions 1, 3, 5, 7 of the colour string are the X2 of A, R, G, B |
| ColorCodec.ParseFormatRoundTrip | UWPColorPickerSample/ColorConverter.cs:52-56 | parsing the formatted string of any colour gives the colour back |
| ColorCodec.ConvertFormatRoundTrip | UWPColorPickerSample/ColorConverter.cs:39-56 | with no colour name starting with '#', `Convert` of the formatted string is the colour |
| ColorCodec.FormatArgbInjective | UWPColorPickerSample/ColorPickerViewModel.cs:58 | distinct colours never share a colour string |
| ColorCodec.SignedPair | UWPColorPickerSample/ColorConverter.cs:53-56 | for every hex digit d, the pair "+d" is accepted with d's value |
| ColorCodec.SignedPairRejected | UWPColorPickerSample/ColorConverter.cs:53-56 | for every non-hex character d, the pair "+d" is rejected |
| ColorCodec.SignedPairsAccepted | UWPColorPickerSample/ColorConverter.cs:53-56 | "#+F+F+F+F" converts to (15, 15, 15, 15): `ToInt32(…, 16)` accepts a '+' sign |
| ColorCodec.OpaqueRedString | UWPColorPickerSample/ColorPickerViewModel.cs:44-48 | the formatted string of `Colors.Red` is "#FFFF0000" |
| ColorCodec.TransparentString | UWPColorPickerSample/ColorConverter.cs:62 | the formatted string of the fallback colour is "#00FFFFFF" |
| DecimalText.Digits | UWPColorPickerSample/ColorPickerViewModel.cs:60 | `ToString` of a non-negative int is a nonempty run of digits without a leading zero |
| DecimalText.DecimalString | UWPColorPickerSample/ColorPickerViewModel.cs:60 | `ToString` starts with '-' exactly for negative values |
| DecimalText.ParseInt | UWPColorPickerSample/ColorPickerViewModel.cs:249 | `int.TryParse` fails on empty text and returns the value of a digit string that fits an int |
| DecimalText.DigitsRoundTrip | UWPColorPickerSample/ColorPickerViewModel.cs:60 | the digits of n read back as n |
| DecimalText.DecimalRoundTrip | UWPColorPickerSample/ColorPickerViewModel.cs:249-255 | `TryParse(n.ToString())` succeeds with n for every int, so the reverted text always parses |
| DecimalText.ParseIntRejectsNonDigit | UWPColorPickerSample/ColorPickerViewModel.cs:249 | a non-digit after an optional sign makes the modelled `TryParse` fail |
| DecimalText.ParseIntRejectsBareSign | UWPColorPickerSample/ColorPickerViewModel.cs:249 | a sign without digits makes `TryParse` fail |
| ColorPicker.WithChannel | UWPColorPickerSample/ColorPickerViewModel.cs:264-266 | assigning one channel of the `Color` struct sets it and keeps the other three |
| ColorPicker.NormalizeChannel | UWPColorPickerSample/ColorPickerViewModel.cs:293-294 | negatives become 0, 0..255 pass through, larger values wrap mod 256 (so the result is smaller), and the `Min` is a no-op |
| ColorPicker.ChannelWrapsAbove255 | UWPColorPickerSample/ColorPickerViewModel.cs:265-266 | 300 becomes 44 and 256 becomes 0 rather than 255; -5 becomes 0 |
| ColorPicker.ChannelUpdate | UWPColorPickerSample/ColorPickerViewModel.cs:290-297 | a channel handler's colour has the normalised value in its channel and the parsed current colour's other channels |
| ColorPicker.FieldsForMeaning | UWPColorPickerSample/ColorPickerViewModel.cs:56-79 | after `UpdateColor(c)` the colour string parses to c, the channel fields are c's and their strings parse to them, and each gradient endpoint parses to c with one channel swept as the source fixes it |
| ColorPicker.FieldsForInjective | UWPColorPickerSample/ColorPickerViewModel.cs:58-75 | two colours with the same colour string give the same colour, hence the same channels, decimal strings, gradients and hue basis |
| ColorPicker.CanonicalColorIsStable | UWPColorPickerSample/ColorPickerViewModel.cs:237-241 | re-converting the canonical colour string of a shown colour rewrites the same fields |
| ColorPicker.UnparseableColorBecomesTransparent | UWPColorPickerSample/ColorPickerViewModel.cs:237-241 | an unparseable colour string is canonicalised to "#00FFFFFF" |
| ColorPicker.ChannelUpdateWithShownValue | UWPColorPickerSample/ColorPickerViewModel.cs:253-256 | re-applying the channel value already shown changes nothing, so a reverted string leaves the colour as it was |
| ColorPicker.ColorPickerViewModel.constructor | UWPColorPickerSample/ColorPickerViewModel.cs:42-50 | the new view model shows `Colors.Red`: color "#FFFF0000", alpha 255, red 255, green 0, blue 0 |
| ColorPicker.ColorPickerViewModel.UpdateColor | UWPColorPickerSample/ColorPickerViewModel.cs:56-79 | every field `UpdateColor` writes is set from c; the pick point's colour is untouched |
| ColorPicker.ColorPickerViewModel.UpdateChannelFields | UWPColorPickerSample/ColorPickerViewModel.cs:58-66 | the colour string and the four channels with their decimal strings are set from c |
| ColorPicker.ColorPickerViewModel.UpdateGradients | UWPColorPickerSample/ColorPickerViewModel.cs:68-75 | the eight gradient endpoints are the formatted strings of c with one channel at 0x00 or 0xFF |
| ColorPicker.ColorPickerViewModel.Current | UWPColorPickerSample/ColorPickerViewModel.cs:106 | computes `(Color)Converter.Convert(this.color, …)`, the colour every handler starts from (also at lines 239, 264, 292, 320 and 348) |
| ColorPicker.ColorPickerViewModel.UpdatePickPoint | UWPColorPickerSample/ColorPickerViewModel.cs:104-114 | the pick point is re-derived from the converted colour string and nothing else changes |
| ColorPicker.ColorPickerViewModel.ShowColor | UWPColorPickerSample/ColorPickerViewModel.cs:267-268 | after `UpdateColor(c); UpdatePickPoint()` every field shows c |
| ColorPicker.ColorPickerViewModel.SetColor | UWPColorPickerSample/ColorPickerViewModel.cs:237-241 | storing a colour string leaves the view model showing its conversion |
| ColorPicker.ColorPickerViewModel.OnColorChanged | UWPColorPickerSample/ColorPickerViewModel.cs:237-241 | the view model shows the conversion of the colour string it held |
| ColorPicker.ColorPickerViewModel.SetAlpha | UWPColorPickerSample/ColorPickerViewModel.cs:251 | storing alpha v shows the current colour with alpha replaced by the normalised v |
| ColorPicker.ColorPickerViewModel.OnAlphaChanged | UWPColorPickerSample/ColorPickerViewModel.cs:262-269 | shows the parsed current colour with only alpha replaced by the normalised field value |
| ColorPicker.ColorPickerViewModel.SetAlphaString | UWPColorPickerSample/ColorPickerViewModel.cs:255 | storing alpha text shows the colour with alpha from the parsed text, or from the current alpha when it does not parse |
| ColorPicker.ColorPickerViewModel.OnAlphaStringChanged | UWPColorPickerSample/ColorPickerViewModel.cs:246-257 | parsed text sets alpha; unparseable text is reverted to the current alpha's decimal form |
| ColorPicker.ColorPickerViewModel.SetRed | UWPColorPickerSample/ColorPickerViewModel.cs:279 | storing red v shows the current colour with red replaced by the normalised v |
| ColorPicker.ColorPickerViewModel.OnRedChanged | UWPColorPickerSample/ColorPickerViewModel.cs:290-297 | shows the parsed current colour with only red replaced by the normalised field value |
| ColorPicker.ColorPickerViewModel.SetRedString | UWPColorPickerSample/ColorPickerViewModel.cs:283 | storing red text shows the colour with red from the parsed text, or from the current red when it does not parse |
| ColorPicker.ColorPickerViewModel.OnRedStringChanged | UWPColorPickerSample/ColorPickerViewModel.cs:274-285 | parsed text sets red; unparseable text is reverted to the current red's decimal form |
| ColorPicker.ColorPickerViewModel.SetGreen | UWPColorPickerSample/ColorPickerViewModel.cs:307 | storing green v shows the current colour with green replaced by the normalised v |
| ColorPicker.ColorPickerViewModel.OnGreenChanged | UWPColorPickerSample/ColorPickerViewModel.cs:318-325 | shows the parsed current colour with only green replaced by the normalised field value |
| ColorPicker.ColorPickerViewModel.SetGreenString | UWPColorPickerSample/ColorPickerViewModel.cs:311 | storing green text shows the colour with green from the parsed text, or from the current green when it does not parse |
| ColorPicker.ColorPickerViewModel.OnGreenStringChanged | UWPColorPickerSample/ColorPickerViewModel.cs:302-313 | parsed text sets green; unparseable text is reverted to the current green's decimal form |
| ColorPicker.ColorPickerViewModel.SetBlue | UWPColorPickerSample/ColorPickerViewModel.cs:335 | storing blue v shows the current colour with blue replaced by the normalised v |
| ColorPicker.ColorPickerViewModel.OnBlueChanged | UWPColorPickerSample/ColorPickerViewModel.cs:346-353 | shows the parsed current colour with only blue replaced by the normalised field value |
| ColorPicker.ColorPickerViewModel.SetBlueString | UWPColorPickerSample/ColorPickerViewModel.cs:339 | storing blue text shows the colour with blue from the parsed text, or from the current blue when it does not parse |
| ColorPicker.ColorPickerViewModel.OnBlueStringChanged | UWPColorPickerSample/ColorPickerViewModel.cs:330-341 | parsed text sets blue; unparseable text is reverted to the current blue's decimal form |
| TiledImage.CeilDiv | UWPTiledImageSample/ImageTile.cs:142 | the number of loop steps of size b below a is the least q with q·b ≥ a |
| TiledImage.CeilDivIsLeast | UWPTiledImageSample/ImageTile.cs:142-144 | a step q runs (q·b < a) exactly when q is below the step count |
| TiledImage.TileRectOfGrid | UWPTiledImageSample/ImageTile.cs:142-164 | the tile at column col and row row is tile col·rows + row, at (col·w, row·h) |
| TiledImage.TileOriginInside | UWPTiledImageSample/ImageTile.cs:142-165 | every placed tile has its origin inside the panel |
| TiledImage.TilesCoverPanel | UWPTiledImageSample/ImageTile.cs:142-165 | every pixel of the panel lies in some placed tile |
| TiledImage.TilesDisjoint | UWPTiledImageSample/ImageTile.cs:142-165 | no pixel lies in two different tiles |
| TiledImage.Reconcile | UWPTiledImageSample/ImageTile.cs:141-173 | the final child list has n elements, and child k is the old child k or the k-th fresh image |
| TiledImage.Grown | UWPTiledImageSample/ImageTile.cs:147-161 | during the loop the list keeps its old length until tiles outnumber it |
| TiledImage.GrownStep | UWPTiledImageSample/ImageTile.cs:147-161 | placing a tile keeps the list when the child exists, else appends one fresh id; the placed prefix is the reconciled list |
| TiledImage.ReconcileReusesPrefix | UWPTiledImageSample/ImageTile.cs:147-161 | reconciliation keeps the old prefix, appends only ids not in use, and creates no duplicates |
| TiledImage.ArrangedDomain | UWPTiledImageSample/ImageTile.cs:154-160 | arranging adds exactly the child ids to the known images |
| TiledImage.ArrangedKeeps | UWPTiledImageSample/ImageTile.cs:147-163 | an image that is not a tile child keeps its state |
| TiledImage.ArrangedTiles | UWPTiledImageSample/ImageTile.cs:147-164 | with distinct children, child k shows the bitmap arranged at tile k |
| TiledImage.ArrangedStep | UWPTiledImageSample/ImageTile.cs:150-163 | arranging one more child updates only that child's image |
| TiledImage.ArrangeOutcome | UWPTiledImageSample/ImageTile.cs:141-173 | after arranging, the children are distinct, each shows its tile, other images are untouched, and every id is below the next free id |
| TiledImage.RemoveAt | UWPTiledImageSample/ImageTile.cs:172 | `RemoveAt(i)` keeps the elements before i and shifts the rest down by one |
| TiledImage.ImageTile.CanTile | UWPTiledImageSample/ImageTile.cs:127-138 | computes the guard of `ArrangeOverride`: `Source` is a bitmap whose pixel width and height are both non-zero |
| TiledImage.ImageTile.constructor | UWPTiledImageSample/ImageTile.cs:98-101 | a new panel has no source, no children, no pending source image and no clip |
| TiledImage.ImageTile.OnSourceChanged | UWPTiledImageSample/ImageTile.cs:42-60 | a new source appends exactly one fresh image showing it and makes it the pending `sourceImage` |
| TiledImage.ImageTile.OnSourceImageFailed | UWPTiledImageSample/ImageTile.cs:67-73 | with a pending image: clears it and all children; without one: a null dereference, nothing changed |
| TiledImage.ImageTile.OnSourceImageOpened | UWPTiledImageSample/ImageTile.cs:80-88 | with a pending image: clears it and keeps the children; without one: a null dereference |
| TiledImage.ImageTile.OnUnloaded | UWPTiledImageSample/ImageTile.cs:108-118 | clears any pending source image and changes nothing else |
| TiledImage.ImageTile.ArrangeOverride | UWPTiledImageSample/ImageTile.cs:125-181 | a non-bitmap or empty bitmap leaves the panel as it was. Otherwise: n = ceil(W/w)·ceil(H/h) children (none when W or H is 0), the reconciled list; child k shows the bitmap at tile k; other images are untouched; the clip is (0, 0, W, H) |
| TiledImage.ImageTile.PlaceTiles | UWPTiledImageSample/ImageTile.cs:141-166 | the nested loops place exactly n tiles column by column, growing the list and arranging each child in turn |
| TiledImage.ImageTile.PlaceTile | UWPTiledImageSample/ImageTile.cs:146-164 | one loop step reuses `Children[index]` or appends a fresh image and arranges it at tile `index` |
| TiledImage.ImageTile.RemoveSurplus | UWPTiledImageSample/ImageTile.cs:168-173 | repeated `RemoveAt(index)` leaves exactly the first `index` children |

## Left out

- `ToHSV`, `FromHsv`, `OnColorSpectrumPointChanged` and `OnPickPointChanged` are left out because they are single-precision floating-point arithmetic.
- `hueColor` and the pick point (`pickPointX`, `pickPointY`, `colorSpectrumPoint`) are not computed, for the same reason. The class records the colour each was last derived from (`hueBasis`, `pickBasis`).
- UWPColorPickerSample/ColorPicker.xaml.cs is not part of this model. It holds pointer handling and double-valued clamping of the picker UI.
- The reflection lookup `typeof(Colors).GetRuntimeProperty` is a platform call. It is modelled as an abstract map from names to colours, of which the model assumes only that no name starts with '#'.
- `OnPropertyChanged` notifications and the Prism `BindableBase` base class are left out. They only notify bindings.
- The generated property setters are not in the source. They are modelled as "store the value, then call the hook".
- The `Color` setter is modelled for string values only. A null colour string would go to `Transparent` through `Convert`, but the view model never stores null.
- `int.TryParse` is modelled on the digits '0'..'9' with an optional leading sign. Leading and trailing whitespace, which .NET accepts, and culture-specific signs are not modelled.
- `int.ToString` is modelled for the invariant culture.
- `UpdateColor` is split into `UpdateChannelFields` and `UpdateGradients`, the two blocks of assignments in the source, to keep each proof small. The order of the field writes is not observable in the model.
- `ArrangeOverride`'s nested loops and removal loop are the helper methods `PlaceTiles`, `PlaceTile` and `RemoveSurplus`. Only tile positions and sizes are recorded per image.
- `Measure` and `Arrange` side effects other than the recorded rectangle are left out: rendering, image decoding, visual-tree attachment and the `ImageOpened`/`ImageFailed`/`Unloaded` event subscriptions.
- `InvalidateArrange` and the value `base.ArrangeOverride` returns are left out. The model does not track layout passes.
- Panel sizes are naturals. The `double` accumulation in `x += width` and an infinite `finalSize` are not modelled.
- The `d as ImageTile` null check in `OnSourceChanged` is left out, because the model's handler belongs to the panel itself.
- `OnSourceChanged` stands for the dependency-property callback. The property system calls it only when the value actually changes, and that filter is left to the caller.
