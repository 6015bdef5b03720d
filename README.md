# Equiluminant stimuli: a Dafny model of the colour-correction step

`code/create_equiluminant_stimuli.py` makes subject-specific equiluminant versions of the stimuli of a
binocular-rivalry / memory-colour experiment. It reads two tables: the population-typical R, G, B
values of each stimulus, for the true-colour and the inverted-colour image, and the subject's
equiluminance factors for the same six channels. For each pair of rows it loads four images:
the true-colour stimulus, its inverted counterpart, a colour mask and a foreground/background mask.
For every pixel the colour mask selects, it divides each colour channel by the typical value and
multiplies it by the subject's factor. It then makes the foreground opaque and records, as a "clip"
image, how far each channel went above 255. Finally it clamps the corrected image at 255 and stores
it as 8-bit.

The model has three modules:

- `Pixels` (pixels.dfy): pure per-pixel arithmetic. It holds the rescale formula, the overflow
  `max(v - 255, 0)`, the clamp, the 8-bit cast, and the channel reordering (B, G, R to R, G, B, A
  and back). It also holds `CorrectPixel`, a reference definition of what the loop body computes
  for one pixel of one image variant, with lemmas about it.
- `Tables` (tables.dfy): the positional pairing of the two tables (Python's `zip`) and the files
  each iteration reads and writes.
- `Stimulus` (stimulus.dfy): the loop body on buffers. Decoded images are `array3<Byte>`
  (height × width × 3, in the decoder's B, G, R order). Float working images are `array3<real>`,
  the split planes are `array2<real>` and the masks are `array2<bool>`. Each numpy vectorised or
  masked assignment becomes a Dafny `forall` statement that updates the array in place, and each
  method's postcondition relates the new contents to the old ones. `CorrectVariant` and
  `ProcessStimulus` prove that every output pixel equals `CorrectPixel` applied to the source pixel
  and the two masks, clamped and cast (corrected image), or the floor of its overflow wherever that
  overflow is at most 255 (clip image).

Channel values are exact reals rather than float32. The alpha value that OpenCV's float BGR to
RGBA conversion puts into every pixel is library behaviour, so it is a parameter (`alpha`).

Behaviour of the code a reader might not expect:

- Two tables with different row counts are not an error. `zip` stops at the shorter table
  (`Tables.Jobs`).
- The stimulus name comes from the luminance table only. The colour table's names are never
  compared with it.
- The clip image is computed over all four channels, alpha included. Its alpha channel is always 0
  (`Pixels.AlphaNeverOverflows`).
- The clamp applies to all four channels and has no lower bound at 0.
- Alpha outside the foreground mask keeps the decoder's value, not 255.

## Model

| member | source | states |
|---|---|---|
| `Pixels.Rescale` | code/create_equiluminant_stimuli.py:112-118 | result × typical = value × factor; a value equal to the typical value becomes exactly the subject's factor; non-negative for non-negative inputs and a positive typical value |
| `Pixels.Overflow` | code/create_equiluminant_stimuli.py:129-135 | never negative; zero exactly when the value is at most 255; otherwise the value is 255 plus the overflow |
| `Pixels.Clamp` | code/create_equiluminant_stimuli.py:143-144 | at most 255 and at most the value; either the value or 255; values already ≤ 255 unchanged |
| `Pixels.ToByte` | code/create_equiluminant_stimuli.py:147-148 | for a value in [0, 255], the 8-bit result is its floor |
| `Pixels.ClampIdempotent` | code/create_equiluminant_stimuli.py:143-144 | clamping twice equals clamping once |
| `Pixels.ClampPlusOverflow` | code/create_equiluminant_stimuli.py:129-144 | clamped value plus clip value is the unclamped value: the clip image records exactly what the clamp removes |
| `Pixels.ToByteOfByte` | code/create_equiluminant_stimuli.py:99-100 | a decoded 8-bit value converted to float and cast back is unchanged |
| `Pixels.ToRgba` | code/create_equiluminant_stimuli.py:102-103 | the BGR to RGBA conversion yields four channels; `Pixels.InsideColorMaskRescaled` pins which source channel each plane holds, end to end (stored B, G, R are rescaled with the B, G, R columns and return to the same slots) |
| `Pixels.ToBgra` | code/create_equiluminant_stimuli.py:125-126 | merging as B, G, R, A yields four channels; `Pixels.ChannelOrderRestored` states that it undoes the conversion |
| `Pixels.ChannelOrderRestored` | code/create_equiluminant_stimuli.py:102-126 | converting to RGBA and merging back as B, G, R, A gives the original B, G, R followed by alpha |
| `Pixels.RescaleRgb` | code/create_equiluminant_stimuli.py:112-118 | the rescale of one pixel keeps its four channels; the per-channel formula is stated by `Pixels.InsideColorMaskRescaled` |
| `Pixels.CorrectPixel` | code/create_equiluminant_stimuli.py:99-126 | the reference pixel computation yields four channels (B, G, R, A); its behaviour is stated by the lemmas below |
| `Pixels.OutsideColorMaskUnchanged` | code/create_equiluminant_stimuli.py:112-118 | outside the colour mask, B, G and R of the merged pixel equal the source's |
| `Pixels.InsideColorMaskRescaled` | code/create_equiluminant_stimuli.py:112-118 | inside the colour mask, each of B, G, R is source / typical × factor with that channel's columns |
| `Pixels.AlphaFromForegroundMask` | code/create_equiluminant_stimuli.py:121-122 | alpha is 255 where the foreground mask selects the pixel and the decoder's value elsewhere, whatever the colour mask says |
| `Pixels.AlphaNeverOverflows` | code/create_equiluminant_stimuli.py:129-135 | with a decoder alpha ≤ 255 the alpha channel of the clip image is 0 |
| `Pixels.CorrectPixelNonNegative` | code/create_equiluminant_stimuli.py:143-148 | with non-negative inputs, positive typical values and non-negative factors, every clamped channel lies in [0, 255] |
| `Pixels.UntouchedPixelKeepsBytes` | code/create_equiluminant_stimuli.py:99-148 | a stored pixel outside the colour mask reaches the output with its original B, G, R bytes in the same slots |
| `Pixels.InRangeExample` | code/create_equiluminant_stimuli.py:112-144 | typical (100,100,100), factors (50,50,50), RGB (200,100,100) become (100,50,50); clip image all zero; clamp changes nothing |
| `Pixels.OverflowExample` | code/create_equiluminant_stimuli.py:112-144 | typical (10,10,10), factors (200,200,200), value 50 becomes 1000; clip value 745; clamped to 255 |
| `Pixels.ClipCastExample` | code/create_equiluminant_stimuli.py:112-148 | stored R 201, typical R 2, factor R 3 becomes 301.5; overflow 46.5 is stored in the clip image as 46; the corrected R is 255 |
| `Tables.Jobs` | code/create_equiluminant_stimuli.py:86-92 | as many jobs as the shorter table has rows; job i pairs colour row i with luminance row i and takes the luminance row's name |
| `Tables.Inputs` | code/create_equiluminant_stimuli.py:88-92 | four input files, all named by the job's stimulus, all in the four input folders |
| `Tables.Outputs` | code/create_equiluminant_stimuli.py:140-152 | four output files, all named by the job's stimulus, pairwise different, none of them an input file |
| `Tables.OutputsDistinct` | code/create_equiluminant_stimuli.py:86-152 | if the luminance table names each stimulus once, no two jobs write the same file |
| `Stimulus.SourcePixel` | code/create_equiluminant_stimuli.py:99-100 | a decoded pixel as three non-negative reals |
| `Stimulus.DeriveMask` | code/create_equiluminant_stimuli.py:105-106 | the mask has the mask image's height and width; a pixel is selected iff channel 0 of the mask image is nonzero |
| `Stimulus.ToFloatRgba` | code/create_equiluminant_stimuli.py:99-103 | a new height × width × 4 image whose pixels are the RGBA conversion of the source pixels |
| `Stimulus.Channel` | code/create_equiluminant_stimuli.py:108-109 | a new plane equal to channel k of the image |
| `Stimulus.Split` | code/create_equiluminant_stimuli.py:108-109 | four new, distinct planes equal to channels 0 to 3 of the image |
| `Stimulus.RescaleMasked` | code/create_equiluminant_stimuli.py:112-118 | in place: selected pixels become old / typical × factor, the others keep their old value |
| `Stimulus.SetMasked` | code/create_equiluminant_stimuli.py:121-122 | in place: selected pixels become the value, the others keep their old value |
| `Stimulus.Merge` | code/create_equiluminant_stimuli.py:125-126 | a new four-channel image whose channel k is the k-th plane given |
| `Stimulus.MergedPixel` | code/create_equiluminant_stimuli.py:108-126 | the rescaled and alpha-set planes merged as B, G, R, A are the reference pixel |
| `Stimulus.ClipImage` | code/create_equiluminant_stimuli.py:129-135 | a new image, same shape, each element the overflow of the corrected image's element; the corrected image is only read |
| `Stimulus.ClampInPlace` | code/create_equiluminant_stimuli.py:143-144 | in place: every element becomes the clamp of its old value |
| `Stimulus.ClipToBytes` | code/create_equiluminant_stimuli.py:137-138 | a new 8-bit image, same shape; each element in [0, 255] becomes its floor; larger elements are unconstrained |
| `Stimulus.ToBytes` | code/create_equiluminant_stimuli.py:147-148 | a new 8-bit image, same shape, each element the cast of the float element |
| `Stimulus.CorrectVariant` | code/create_equiluminant_stimuli.py:99-148 | for one variant, every element of the unclamped clip image is the overflow of the reference pixel; the 8-bit clip image holds its floor wherever the overflow is at most 255; every corrected pixel is the clamped, cast reference pixel |
| `Stimulus.ProcessStimulus` | code/create_equiluminant_stimuli.py:86-152 | fails with ShapeMismatch iff a mask's height or width differs from an image's; otherwise four new 8-bit images: both variants corrected with their own columns and the same two masks, and both clip images holding the floor of the overflow wherever it is at most 255 |

## Left out

- Directory creation and the listing of stimulus files (code/create_equiluminant_stimuli.py:22-67): filesystem side effects.
- Loading the two tables (lines 74-76): a pandas call. Tables are sequences of `Row` values.
- Reading and writing images (lines 94-97, 140-141, 151-152): codec I/O. `ProcessStimulus` takes decoded buffers and returns the four output buffers. `Tables.Inputs` and `Tables.Outputs` give the file each one comes from or goes to. A missing file (the decoder returns nothing and line 99 fails) is therefore not modelled.
- The driver loop at line 86 that does this I/O for each job: the model gives the job list (`Tables.Jobs`) and one iteration (`Stimulus.ProcessStimulus`).
- float32 rounding: channel values are exact reals.
- The 8-bit cast of the clip image (lines 137-138) for an overflow above 255: numpy's result is platform dependent, so `ClipToBytes` leaves those elements unspecified. The exact overflow stays available as the real image `CorrectVariant` returns.
- The alpha value written by OpenCV's float BGR to RGBA conversion (lines 102-103): a parameter.
- Stimulus.ProcessStimulus: requires typical values > 0, factors ≥ 0 and a decoder alpha in [0, 255], which the program does not check. With a zero typical value numpy yields inf or nan. Negative values make negative channels, whose 8-bit cast at lines 147-148 is platform dependent. Its two 8-bit clip images are constrained only where the overflow is at most 255.
- Stimulus.CorrectVariant: same preconditions as `ProcessStimulus`, for the same reason. Its 8-bit clip image is constrained only where the overflow is at most 255.
- Stimulus.RescaleMasked: requires the mask to have the plane's height and width. The shape error is modelled once, as `ShapeMismatch` in `ProcessStimulus`, before any step runs.
- The unused plotting import (line 14).
