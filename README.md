# gifspector, modelled in Dafny

gifspector is a command-line tool that reports the metadata of an animated
GIF, writes each frame to its own file (GIF or JPEG), and trims an animation to
a range of frames, writing `trimmed.gif`. Apart from calls into the image
codecs and the file system, it has three pieces of logic. This project models
those three and proves properties about them:

- **Trim-range normalisation** (`normalizeTrimLength`). The start and end
  arguments use `-1` to mean "not given". An unset start becomes 0. An unset
  end becomes the frame count. If the start is then greater than the end, the
  tool prints an error and exits with status 1; the model returns `None` for
  that case. Nothing else is checked. A negative start other than `-1`, or an
  end beyond the frame count, is passed through unchanged. The model passes
  the frame count instead of the whole animation, because the frame count is
  the only part of the animation the function reads.
- **Trimming** (`TrimGIF`). The decoded animation is the class `Gif`. Its
  fields are the frame images, the per-frame delays, the disposal codes, the
  loop count, and the width and height. `Gif.Trim` slices the three per-frame
  sequences to `[start, end)`. It leaves the other fields alone. Like the Go
  code, it makes no copy: it overwrites the fields of the object it is given
  and returns that same object.
- **Split-frame file names** (the `Sprintf` in `SplitGIF`). Frame `i` is
  written to `folder + "/frame" + %02d(i) + ext`, where `ext` is `.jpeg` or
  `.gif`. The module `Format` models Go's `%d` and `%0Nd` for non-negative
  integers. It also defines `DigitsValue`, which reads a digit string back as
  a number, and states the renderings against it. `Gif.SplitGIF` runs the
  split loop over every frame index. It returns the (file name, frame) pairs
  that the tool would write, and proves that no two of the names are equal.

`Gif.RunTrim` is the trim step of `main` without the output file. When no
start is given, it does nothing. Otherwise it normalises the range and then
trims. A range that normalisation accepts but that falls outside the frame
sequences gets its own outcome, `OutsideFrames`. In Go, such a range makes
the slice expression panic. It can also read past the frames when the
backing array has spare capacity, because Go checks `s[a:b]` against the
capacity of `s`, not its length. The model does not follow either of those
behaviours; `Trim` itself requires `0 <= start <= end <= |Image|`.

Trimming is destructive. `newgif := original` copies the pointer only, so
after the trim step the decoded animation's original frame, delay and
disposal sequences are gone.

Integers are unbounded in the model. No modelled operation does arithmetic on
Go's 64-bit `int` that could overflow: normalisation only compares and
substitutes, and frame indices are below the frame count.

## Model

| member | source | states |
|---|---|---|
| `Gifspector.NormalizeTrimLength` | gifspector.go:115-130 | An unset start becomes 0; any other start is returned unchanged. An unset end becomes the frame count; any other end is returned unchanged. The result is a failure exactly when the defaulted start is greater than the defaulted end. On success, start <= end. If both arguments are at least -1 and at most the frame count, the range is within [0, frame count]. |
| `Gifspector.NormalizeTrimLengthIdempotent` | gifspector.go:115-124 | A normalised range contains no sentinel, so normalising it again returns it unchanged. |
| `Gifspector.Gif.constructor` | gifspector.go:32 | Requires one delay and one disposal code per frame, as the decoder produces them. The decoded animation satisfies Valid() and holds exactly the images, delays, disposal codes, loop count and size that the decoder handed over. |
| `Gifspector.Gif.Trim` | gifspector.go:95-101 | Requires equal-length sequences and 0 <= start <= end <= frame count; the code checks neither. Returns the same object. Image, Delay and Disposal each become the old sequence's slice [start, end). The three stay equal in length, end - start. Element k equals old element start + k. LoopCount, Width and Height are unchanged. Trimming to [0, frame count) leaves all three sequences unchanged. |
| `Gifspector.Gif.RunTrim` | gifspector.go:50-59 | With the start unset, the trim step is skipped. Otherwise a failed normalisation gives InvalidTrimLength. A normalised range outside the frames gives OutsideFrames. Any other range is trimmed in place. Only the Trimmed outcome changes the sequences, to the slices of the normalised range. LoopCount and the size never change. |
| `Gifspector.Gif.SplitGIF` | gifspector.go:71-91 | One entry per frame, in frame order. Entry k is frame k paired with the name FrameFileName(folder, k, ext), where ext is ".jpeg" if the JPEG flag is set and ".gif" otherwise. No two entries have the same name. |
| `Gifspector.FrameFileNameParts` | gifspector.go:79 | The name of frame i's file is: the folder, then "/frame", then a string of at least two decimal digits that denotes i and has no leading '0' beyond two characters, then the extension. |
| `Gifspector.FrameFileNameInjective` | gifspector.go:79 | With the same folder and extension, distinct frame indices give distinct file names. |
| `Gifspector.FrameFileNameFormatsDiffer` | gifspector.go:72-79 | A JPEG frame file name never equals a GIF frame file name in the same folder. So splitting into the same output folder once with the JPEG flag and once without never overwrites a file of the other run. |
| `Format.Decimal` | gifspector.go:79 | %d of a non-negative index: a non-empty digit string that denotes the index. It starts with '0' only for 0, and it is one character long exactly for indices below 10. |
| `Format.LeadingZerosValue` | gifspector.go:79 | Left-padding a digit string with zeros, as the 0 flag of %02d does, does not change the number it denotes. |
| `Format.ZeroPaddedDigits` | gifspector.go:79 | %0Nd of a non-negative index (`ZeroPadded`) is a digit string at least N characters long that denotes the index. It carries a leading '0' beyond N characters only when it is the single digit "0". |
| `Format.ZeroPaddedUnique` | gifspector.go:79 | For a width of at least 1, ZeroPadded is the only string with the properties of ZeroPaddedDigits. So those properties alone pin down %02d. |

## Left out

- Command-line parsing with kingpin and the help flag (gifspector.go:12-21): a thin layer over an external library. The defaults appear in the model only as the `-1` sentinel (`Unset`) of the trim arguments.
- Opening, creating and closing files, the `defer` calls, and the output-folder stat and `os.Mkdir` (gifspector.go:23-29, 39-42, 52-58, 80-81): operating-system I/O. `RunTrim` therefore does not model a failure to create `trimmed.gif`, which in the source happens between normalisation and trimming.
- `gif.DecodeAll`, `gif.EncodeAll`, `gif.Encode` and `jpeg.Encode` (gifspector.go:32, 60, 86, 88): calls into the codec libraries. Frames are values of an opaque type parameter. The decoder is represented only by the `Gif` constructor, and the encoders not at all.
- `printStats` (gifspector.go:104-113): console output with no logic of its own.
- Error messages and the process exit: a failure is a `None` result or a `TrimOutcome` value.
- The split loop's handling of a file that cannot be created, which is reported and skipped (gifspector.go:82-90): I/O error handling. `SplitGIF` returns the names and frames for every index, which is the plan of the files the loop writes.
- `Gifspector.Gif.RunTrim`: a range outside the frames gets its own outcome instead of a model of Go's panic, or of reading past the frames into spare slice capacity.
- The GIF's background colour index and colour model (fields of Go's `gif.GIF` and `image.Config`): the modelled code never reads or writes them.
