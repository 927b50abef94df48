/** The logic of gifspector that is not I/O: normalising the trim range given
    on the command line, trimming a decoded animation to that range, and
    naming the files that splitting an animation writes.

    Decoding and encoding, file handling and console output are outside the
    model; a decoded frame is an opaque value of the type parameter Frame. */
module Gifspector {
  import Format

  datatype Option<T> = None | Some(value: T)

  /** GIF disposal codes are bytes. */
  newtype byte = x: int | 0 <= x < 256

  /** A half-open frame range [start, end). */
  datatype TrimRange = TrimRange(start: int, end: int)

  /** The sentinel the command line uses for "not given". */
  const Unset: int := -1

  /** Replaces an unset start by 0 and an unset end by the frame count, and
      fails (the tool exits with status 1) when the start then lies after the
      end. Nothing else is checked: a negative start other than the sentinel,
      or an end beyond the frame count, is passed through. */
  function NormalizeTrimLength(startl: int, endl: int, frameCount: nat): (r: Option<TrimRange>)
    ensures r.Some? && startl == Unset ==> r.value.start == 0
    ensures r.Some? && startl != Unset ==> r.value.start == startl
    ensures r.Some? && endl == Unset ==> r.value.end == frameCount
    ensures r.Some? && endl != Unset ==> r.value.end == endl
    ensures r.None? <==> (if startl == Unset then 0 else startl) > (if endl == Unset then frameCount else endl)
    ensures r.Some? ==> r.value.start <= r.value.end
    ensures r.Some? && startl >= Unset && endl <= frameCount ==> 0 <= r.value.start <= r.value.end <= frameCount
  {
    var start := if startl == Unset then 0 else startl;
    var end := if endl == Unset then frameCount else endl;
    if start > end then None else Some(TrimRange(start, end))
  }

  /** A normalised range contains no sentinel, so normalising it again changes
      nothing. */
  lemma NormalizeTrimLengthIdempotent(startl: int, endl: int, frameCount: nat)
    requires NormalizeTrimLength(startl, endl, frameCount).Some?
    ensures var r := NormalizeTrimLength(startl, endl, frameCount).value;
            NormalizeTrimLength(r.start, r.end, frameCount) == Some(r)
  {
  }

  /** The extension of a split frame's file: JPEG or GIF. */
  function Extension(saveAsJpeg: bool): string {
    if saveAsJpeg then ".jpeg" else ".gif"
  }

  /** The name "%s/frame%02d%s" of the file frame i is written to. */
  function FrameFileName(folder: string, i: nat, format: string): string {
    folder + "/frame" + Format.ZeroPadded(i, 2) + format
  }

  /** Reading a frame file name back: it is the folder, "/frame", a string of
      at least two digits that denotes i, and the extension. */
  lemma FrameFileNameParts(folder: string, i: nat, format: string)
    ensures var name := FrameFileName(folder, i, format);
            var digits := name[|folder| + 6 .. |name| - |format|];
            && |name| >= |folder| + 8 + |format|
            && name[..|folder|] == folder
            && name[|folder| .. |folder| + 6] == "/frame"
            && name[|name| - |format|..] == format
            && Format.IsDigits(digits) && |digits| >= 2
            && Format.DigitsValue(digits) == i
            && (|digits| > 2 ==> digits[0] != '0')
  {
    Format.ZeroPaddedDigits(i, 2);
  }

  /** Distinct frame indices give distinct file names. */
  lemma FrameFileNameInjective(folder: string, i: nat, j: nat, format: string)
    requires i != j
    ensures FrameFileName(folder, i, format) != FrameFileName(folder, j, format)
  {
    FrameFileNameParts(folder, i, format);
    FrameFileNameParts(folder, j, format);
  }

  /** A file the split step writes: its name and the frame written to it. */
  datatype FrameFile<Frame> = FrameFile(name: string, frame: Frame)

  /** Files named by their position in a sequence all have different names. */
  lemma FrameFileNamesDistinct<Frame>(files: seq<FrameFile<Frame>>, folder: string, format: string)
    requires forall k :: 0 <= k < |files| ==> files[k].name == FrameFileName(folder, k, format)
    ensures forall a, b :: 0 <= a < b < |files| ==> files[a].name != files[b].name
  {
    forall a, b | 0 <= a < b < |files|
      ensures files[a].name != files[b].name
    {
      FrameFileNameInjective(folder, a, b, format);
    }
  }

  /** A JPEG frame file never has the name of a GIF frame file, so splits of
      one animation in the two formats into one folder never collide. */
  lemma FrameFileNameFormatsDiffer(folder: string, i: nat, j: nat)
    ensures FrameFileName(folder, i, Extension(true)) != FrameFileName(folder, j, Extension(false))
  {
    var a, b := FrameFileName(folder, i, Extension(true)), FrameFileName(folder, j, Extension(false));
    assert a[|a| - 1] == 'g';
    assert b[|b| - 1] == 'f';
  }

  /** What became of a requested trim, short of writing trimmed.gif. */
  datatype TrimOutcome =
    | NotRequested        // no start argument: the trim step is skipped
    | InvalidTrimLength   // start after end: error message and exit status 1
    | OutsideFrames       // the range leaves the frame sequences: Go's slicing does not stay in them
    | Trimmed(range: TrimRange)

  /** A decoded animation: frame images with their per-frame delays (in
      hundredths of a second) and disposal codes, the loop count, and the
      logical screen size. */
  class Gif<Frame> {
    var Image: seq<Frame>
    var Delay: seq<int>
    var Disposal: seq<byte>
    var LoopCount: int
    var Width: int
    var Height: int

    /** The three per-frame sequences run in parallel, as the decoder makes them. */
    predicate Valid()
      reads this
    {
      |Delay| == |Image| && |Disposal| == |Image|
    }

    /** A decoded animation, as the decoder hands it over: one delay and one
        disposal code per frame. */
    constructor (image: seq<Frame>, delay: seq<int>, disposal: seq<byte>, loopCount: int, width: int, height: int)
      requires |delay| == |image| && |disposal| == |image|
      ensures Valid()
      ensures Image == image && Delay == delay && Disposal == disposal
      ensures LoopCount == loopCount && Width == width && Height == height
    {
      Image, Delay, Disposal := image, delay, disposal;
      LoopCount, Width, Height := loopCount, width, height;
    }

    /** Trims the animation to the frames [start, end). The code does not copy:
        it overwrites the three sequence fields of this very object and returns
        it. The bounds are the caller's to ensure; the code checks none. */
    method Trim(start: int, end: int) returns (newgif: Gif<Frame>)
      requires Valid()
      requires 0 <= start <= end <= |Image|
      modifies this
      ensures newgif == this
      ensures Valid() && |Image| == end - start
      ensures Image == old(Image)[start..end]
      ensures Delay == old(Delay)[start..end]
      ensures Disposal == old(Disposal)[start..end]
      ensures forall k :: 0 <= k < |Image| ==>
                Image[k] == old(Image)[start + k]
                && Delay[k] == old(Delay)[start + k]
                && Disposal[k] == old(Disposal)[start + k]
      ensures LoopCount == old(LoopCount) && Width == old(Width) && Height == old(Height)
      ensures start == 0 && end == old(|Image|) ==>
                Image == old(Image) && Delay == old(Delay) && Disposal == old(Disposal)
    {
      newgif := this;
      newgif.Image := Image[start..end];
      newgif.Delay := Delay[start..end];
      newgif.Disposal := Disposal[start..end];
    }

    /** The trim step of the tool, without the file it writes: skipped when no
        start is given; otherwise the range is normalised, and on success the
        animation is trimmed in place. A range that leaves the frames is
        reported as OutsideFrames, where Go's slicing would panic or read
        past the frames. */
    method RunTrim(startArg: int, endArg: int) returns (outcome: TrimOutcome)
      requires Valid()
      modifies this
      ensures Valid()
      ensures startArg == Unset ==> outcome == NotRequested
      ensures startArg != Unset ==>
                match NormalizeTrimLength(startArg, endArg, old(|Image|))
                case None => outcome == InvalidTrimLength
                case Some(r) =>
                  if 0 <= r.start && r.end <= old(|Image|) then outcome == Trimmed(r)
                  else outcome == OutsideFrames
      ensures outcome.Trimmed? ==>
                Image == old(Image)[outcome.range.start..outcome.range.end]
                && Delay == old(Delay)[outcome.range.start..outcome.range.end]
                && Disposal == old(Disposal)[outcome.range.start..outcome.range.end]
      ensures !outcome.Trimmed? ==>
                Image == old(Image) && Delay == old(Delay) && Disposal == old(Disposal)
      ensures LoopCount == old(LoopCount) && Width == old(Width) && Height == old(Height)
    {
      if startArg == Unset {
        return NotRequested;
      }
      var normalized := NormalizeTrimLength(startArg, endArg, |Image|);
      match normalized {
        case None =>
          outcome := InvalidTrimLength;
        case Some(r) =>
          if 0 <= r.start && r.end <= |Image| {
            var newgif := Trim(r.start, r.end);
            outcome := Trimmed(r);
          } else {
            outcome := OutsideFrames;
          }
      }
    }

    /** The files splitting writes, in order: for every frame index i, the
        name of frame i's file paired with frame i. Names of different frames
        differ. */
    method SplitGIF(saveFolder: string, saveAsJpeg: bool) returns (files: seq<FrameFile<Frame>>)
      ensures |files| == |Image|
      ensures forall k :: 0 <= k < |files| ==>
                files[k] == FrameFile(FrameFileName(saveFolder, k, Extension(saveAsJpeg)), Image[k])
      ensures forall a, b :: 0 <= a < b < |files| ==> files[a].name != files[b].name
    {
      var format := Extension(saveAsJpeg);
      var frames := Image;
      files := [];
      for i := 0 to |frames|
        invariant |files| == i
        invariant forall k :: 0 <= k < i ==> files[k] == FrameFile(FrameFileName(saveFolder, k, format), frames[k])
      {
        var filename := FrameFileName(saveFolder, i, format);
        files := files + [FrameFile(filename, frames[i])];
      }
      FrameFileNamesDistinct(files, saveFolder, format);
    }
  }

  /** Trimming a three-frame animation with delays [10, 20, 30] to [1, 3)
      keeps the last two frames, their delays and the loop count. */
  method TrimThreeFrames<Frame>(f0: Frame, f1: Frame, f2: Frame)
  {
    var g := new Gif([f0, f1, f2], [10, 20, 30], [0, 1, 2], 5, 100, 50);
    var outcome := g.RunTrim(1, 3);
    assert outcome == Trimmed(TrimRange(1, 3));
    assert g.Image == [f1, f2] && g.Delay == [20, 30] && g.Disposal == [1, 2];
    assert g.LoopCount == 5;
    var again := g.RunTrim(1, 0);
    assert again == InvalidTrimLength;
    assert g.Delay == [20, 30];
  }
}
