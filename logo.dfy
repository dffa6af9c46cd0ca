/**
 * The SVG-to-ICO helper script (code-core/logoGenerator.py): derive the
 * output and temporary paths from the SVG path with `os.path.splitext`,
 * rasterise the SVG to a temporary PNG, save it as a multi-size ICO,
 * delete the PNG, and re-raise any failure with a fixed prefix. The disk
 * is a map from path to what the file holds; CairoSVG and Pillow are the
 * environment, which says which step fails and with what message.
 */
module LogoGenerator {
  import opened Wrappers

  /** The sizes used when none are given. */
  const DEFAULT_SIZES: seq<int> := [16, 32, 48, 64, 128, 256]

  const ERROR_PREFIX := "Error converting SVG to ICO: "

  /** `ntpath`: separator, alternative separator and extension separator. */
  const SEP: char := '\\'
  const ALTSEP: char := '/'
  const EXTSEP: char := '.'

  /** `p.rfind(c)`: the last position of `c` in `p`, -1 for none. */
  function RFind(p: string, c: char): (i: int)
    ensures -1 <= i < |p|
    ensures i >= 0 ==> p[i] == c
    ensures forall k :: i < k < |p| ==> p[k] != c
  {
    if p == [] then -1
    else if p[|p| - 1] == c then |p| - 1
    else RFind(p[..|p| - 1], c)
  }

  /** Some character strictly between positions `lo` and `hi` of `p` is not a dot. */
  predicate NonDotBetween(p: string, lo: int, hi: int)
    requires -1 <= lo && hi <= |p|
  {
    exists k :: lo < k < hi && p[k] != EXTSEP
  }

  /**
   * `os.path.splitext` on Windows: the extension starts at the last dot
   * after the last separator, provided the file name has a character other
   * than a dot before it (so ".bashrc" has no extension); otherwise there
   * is none.
   */
  function SplitExt(p: string): (parts: (string, string))
    ensures parts.0 + parts.1 == p
    ensures parts.1 == [] || (parts.1[0] == EXTSEP && forall k :: 0 < k < |parts.1| ==> parts.1[k] !in {SEP, ALTSEP, EXTSEP})
  {
    var sepIndex := SepIndex(p);
    var dotIndex := RFind(p, EXTSEP);
    if dotIndex > sepIndex && NonDotBetween(p, sepIndex, dotIndex) then
      assert p == p[..dotIndex] + p[dotIndex..];
      (p[..dotIndex], p[dotIndex..])
    else
      (p, [])
  }

  /** The default output path: the SVG path's stem plus ".ico". */
  function DefaultIcoPath(svgPath: string): string
  {
    SplitExt(svgPath).0 + ".ico"
  }

  /** The temporary raster path: the SVG path's stem plus ".png". */
  function PngPath(svgPath: string): string
  {
    SplitExt(svgPath).0 + ".png"
  }

  /** The part of `p` after its last separator. */
  function BaseName(p: string): string
  {
    p[SepIndex(p) + 1..]
  }

  /**
   * `splitext` recovers the stem from the default output path exactly when
   * the stem's file name holds a character other than a dot; for a path
   * like "dir/.svg" the stem is the whole path and the ".ico" added to it
   * is not split off again as an extension.
   */
  lemma DefaultIcoPathSplits(svgPath: string)
    ensures var stem := SplitExt(svgPath).0;
      SplitExt(DefaultIcoPath(svgPath)) == (stem, ".ico") <==> exists k :: 0 <= k < |BaseName(stem)| && BaseName(stem)[k] != EXTSEP
  {
    var stem := SplitExt(svgPath).0;
    assert DefaultIcoPath(svgPath) == stem + ".ico";
    hide SplitExt, DefaultIcoPath;
    ExtensionSplitsOff(stem, ".ico");
  }

  /** The index of the last separator of `p`, -1 for none. */
  function SepIndex(p: string): (i: int)
    ensures -1 <= i < |p|
  {
    if RFind(p, SEP) < RFind(p, ALTSEP) then RFind(p, ALTSEP) else RFind(p, SEP)
  }

  /**
   * An extension (a dot and then neither separators nor dots) appended to
   * `stem` is split off again exactly when the file name of `stem` holds a
   * character other than a dot.
   */
  lemma ExtensionSplitsOff(stem: string, ext: string)
    requires |ext| > 0 && ext[0] == EXTSEP && forall k :: 0 < k < |ext| ==> ext[k] !in {SEP, ALTSEP, EXTSEP}
    ensures SplitExt(stem + ext) == (stem, ext) <==> exists k :: 0 <= k < |BaseName(stem)| && BaseName(stem)[k] != EXTSEP
  {
    var q := stem + ext;
    RFindAppend(stem, ext, SEP);
    RFindAppend(stem, ext, ALTSEP);
    RFindLast(q, EXTSEP, |stem|);
    var sep := SepIndex(stem);
    assert SepIndex(q) == sep;
    NonDotInBase(stem, ext);
    assert q[..|stem|] == stem && q[|stem|..] == ext;
    hide RFind, BaseName;
  }

  /** Appending leaves the characters of the file name of `stem` where they were. */
  lemma NonDotInBase(stem: string, ext: string)
    ensures NonDotBetween(stem + ext, SepIndex(stem), |stem|) <==>
      exists k :: 0 <= k < |BaseName(stem)| && BaseName(stem)[k] != EXTSEP
  {
    var q := stem + ext;
    var sep := SepIndex(stem);
    var base := BaseName(stem);
    assert base == stem[sep + 1..];
    hide SepIndex, RFind;
    assert forall k :: sep < k < |stem| ==> q[k] == base[k - sep - 1];
    assert forall k :: 0 <= k < |base| ==> base[k] == q[k + sep + 1];
  }

  /** A suffix without the character adds no occurrence of it. */
  lemma {:induction false} RFindAppend(p: string, suffix: string, c: char)
    requires forall k :: 0 <= k < |suffix| ==> suffix[k] != c
    ensures RFind(p + suffix, c) == RFind(p, c)
    decreases |suffix|
  {
    if suffix != [] {
      var q := p + suffix;
      assert q[..|q| - 1] == p + suffix[..|suffix| - 1];
      RFindAppend(p, suffix[..|suffix| - 1], c);
    } else {
      assert p + suffix == p;
    }
  }

  /** A position holding `c` with no `c` after it is what `rfind` finds. */
  lemma {:induction false} RFindLast(p: string, c: char, i: nat)
    requires i < |p| && p[i] == c && forall k :: i < k < |p| ==> p[k] != c
    ensures RFind(p, c) == i
    decreases |p|
  {
    if i < |p| - 1 {
      var q := p[..|p| - 1];
      assert forall k :: i < k < |q| ==> q[k] == p[k];
      RFindLast(q, c, i);
    }
  }

  /** The temporary PNG is never the default output path. */
  lemma TempIsNotDefaultIcon(svgPath: string)
    ensures PngPath(svgPath) != DefaultIcoPath(svgPath)
  {
    var stem := SplitExt(svgPath).0;
    assert PngPath(svgPath)[|stem| + 1] == 'p' && DefaultIcoPath(svgPath)[|stem| + 1] == 'i';
  }

  /** The temporary PNG is the SVG path itself exactly when that path ends in ".png" as its extension. */
  lemma TempIsSourceOnlyForPng(svgPath: string)
    ensures PngPath(svgPath) == svgPath <==> SplitExt(svgPath).1 == ".png"
  {
    var parts := SplitExt(svgPath);
    if PngPath(svgPath) == svgPath {
      assert parts.0 + ".png" == parts.0 + parts.1;
      assert parts.1 == (parts.0 + parts.1)[|parts.0|..];
    }
  }

  /** The `(s, s)` pairs Pillow is asked for: one per given size, in order, duplicates kept. */
  function IconSizes(sizes: seq<int>): (pairs: seq<(int, int)>)
    ensures |pairs| == |sizes| && forall k :: 0 <= k < |sizes| ==> pairs[k] == (sizes[k], sizes[k])
  {
    if sizes == [] then [] else [(sizes[0], sizes[0])] + IconSizes(sizes[1..])
  }

  /** What a file holds, as far as the script goes; an icon records the sizes it was saved with. */
  datatype FileContent = Svg | Png(source: string) | Ico(source: string, sizes: seq<(int, int)>) | Other

  /**
   * The failures the libraries and the operating system may raise, one per
   * step, with their messages: `svg2png`, `Image.open(...).convert`,
   * `img.save`, `os.remove`.
   */
  datatype Environment = Environment(
    rasterError: Option<string>,
    openError: Option<string>,
    saveError: Option<string>,
    removeError: Option<string>)

  /** The result and the disk after one call. */
  datatype Outcome = Outcome(result: Result<string, string>, files: map<string, FileContent>)

  /**
   * `convert_svg_to_ico` as a function of the disk: on the first failing
   * step the disk stays as the earlier steps left it and the error carries
   * the prefix.
   */
  function Converted(files: map<string, FileContent>, svgPath: string, icoPath: Option<string>, sizes: Option<seq<int>>,
                     env: Environment): (o: Outcome)
    ensures o.result.Ok? <==> FirstError(env).None?
    ensures o.result.Err? ==> o.result.error == ERROR_PREFIX + FirstError(env).value
    ensures var target := if icoPath.None? then DefaultIcoPath(svgPath) else icoPath.value;
      forall f :: f in files && f != PngPath(svgPath) && f != target ==> f in o.files && o.files[f] == files[f]
  {
    var sizeList := if sizes.None? then DEFAULT_SIZES else sizes.value;
    var target := if icoPath.None? then DefaultIcoPath(svgPath) else icoPath.value;
    var png := PngPath(svgPath);
    if env.rasterError.Some? then Outcome(Err(ERROR_PREFIX + env.rasterError.value), files)
    else
      var rastered := files[png := Png(svgPath)];
      if env.openError.Some? then Outcome(Err(ERROR_PREFIX + env.openError.value), rastered)
      else if env.saveError.Some? then Outcome(Err(ERROR_PREFIX + env.saveError.value), rastered)
      else
        var saved := rastered[target := Ico(svgPath, IconSizes(sizeList))];
        if env.removeError.Some? then Outcome(Err(ERROR_PREFIX + env.removeError.value), saved)
        else Outcome(Ok(target), saved - {png})
  }

  /** The call fails exactly when a step fails, with the prefix and that step's message. */
  function FirstError(env: Environment): Option<string>
  {
    if env.rasterError.Some? then env.rasterError
    else if env.openError.Some? then env.openError
    else if env.saveError.Some? then env.saveError
    else env.removeError
  }

  /**
   * On success the call returns the output path (the given one, or the
   * stem plus ".ico"), the disk holds there an icon saved with the sizes
   * requested, one `(s, s)` pair per size (the defaults when none are
   * given), the temporary PNG is gone, and no other file changed. Which of
   * those sizes the encoder actually writes is not modelled.
   */
  lemma SuccessWritesIcon(files: map<string, FileContent>, svgPath: string, icoPath: Option<string>, sizes: Option<seq<int>>,
                          env: Environment)
    ensures var out := Converted(files, svgPath, icoPath, sizes, env);
      var target := if icoPath.None? then DefaultIcoPath(svgPath) else icoPath.value;
      var png := PngPath(svgPath);
      && (out.result.Ok? <==> FirstError(env).None?)
      && (out.result.Ok? ==>
            && out.result.value == target
            && png !in out.files
            && (target != png ==>
                  target in out.files && out.files[target] == Ico(svgPath, IconSizes(if sizes.None? then DEFAULT_SIZES else sizes.value)))
            && forall f :: f != target && f != png ==> (f in out.files <==> f in files) && (f in files ==> out.files[f] == files[f]))
  {
    hide PngPath, DefaultIcoPath, IconSizes, SplitExt;
  }

  /**
   * On failure the message is the prefix followed by the first failing
   * step's message; the temporary PNG stays on disk exactly when the
   * rasterisation succeeded; nothing besides it and the output path changes.
   */
  lemma FailureKeepsTemp(files: map<string, FileContent>, svgPath: string, icoPath: Option<string>, sizes: Option<seq<int>>,
                         env: Environment)
    ensures var out := Converted(files, svgPath, icoPath, sizes, env);
      var target := if icoPath.None? then DefaultIcoPath(svgPath) else icoPath.value;
      var png := PngPath(svgPath);
      out.result.Err? ==>
        && FirstError(env).Some? && out.result.error == ERROR_PREFIX + FirstError(env).value
        && (env.rasterError.Some? ==> out.files == files)
        && (env.rasterError.None? ==> png in out.files)
        && forall f :: f != target && f != png ==> (f in out.files <==> f in files) && (f in files ==> out.files[f] == files[f])
  {
    hide PngPath, DefaultIcoPath, IconSizes, SplitExt;
  }

  /**
   * An explicit output path equal to the temporary PNG path is written and
   * then removed: the call succeeds and returns a path that no longer
   * exists ("logo.png" for "logo.svg").
   */
  lemma IconAtTempPathIsRemoved(files: map<string, FileContent>, svgPath: string, sizes: Option<seq<int>>, env: Environment)
    requires FirstError(env).None?
    ensures var out := Converted(files, svgPath, Some(PngPath(svgPath)), sizes, env);
      out.result == Ok(PngPath(svgPath)) && PngPath(svgPath) !in out.files
  {
    hide PngPath, DefaultIcoPath, IconSizes, SplitExt;
  }

  /** The disk the script works on. */
  class Disk {
    var files: map<string, FileContent>

    constructor (initial: map<string, FileContent>)
      ensures files == initial
    {
      files := initial;
    }

    /**
     * `convert_svg_to_ico`, step by step: rasterise to the temporary PNG,
     * open it, save the icon, remove the PNG, return the output path;
     * any failure becomes an error with the prefix.
     */
    method ConvertSvgToIco(svgPath: string, icoPath: Option<string>, sizes: Option<seq<int>>, env: Environment)
      returns (r: Result<string, string>)
      modifies this
      ensures Outcome(r, files) == Converted(old(files), svgPath, icoPath, sizes, env)
    {
      var sizeList := if sizes.None? then DEFAULT_SIZES else sizes.value;
      var target := if icoPath.None? then DefaultIcoPath(svgPath) else icoPath.value;
      var png := PngPath(svgPath);
      if env.rasterError.Some? {
        return Err(ERROR_PREFIX + env.rasterError.value);
      }
      files := files[png := Png(svgPath)];
      if env.openError.Some? {
        return Err(ERROR_PREFIX + env.openError.value);
      }
      var iconSizes := IconSizes(sizeList);
      if env.saveError.Some? {
        return Err(ERROR_PREFIX + env.saveError.value);
      }
      files := files[target := Ico(svgPath, iconSizes)];
      if env.removeError.Some? {
        return Err(ERROR_PREFIX + env.removeError.value);
      }
      files := files - {png};
      return Ok(target);
    }
  }
}
