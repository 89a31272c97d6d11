/**
 * File-type handling of the training driver: the extension that
 * `os.path.splitext` (POSIX flavour) yields for the first training input,
 * the exact-string allow-list that picks a decoder for it, and the
 * normalisation each decoder applies to pixel values.
 */
module FileTypes {
  import opened Results

  /** Index of the last occurrence of `c` in `p`, or -1 when `c` does not occur. */
  function LastIndexOf(p: string, c: char): (r: int)
    ensures -1 <= r < |p|
    ensures 0 <= r ==> p[r] == c
    ensures forall i :: r < i < |p| ==> p[i] != c
    decreases |p|
  {
    if |p| == 0 then -1
    else if p[|p| - 1] == c then |p| - 1
    else LastIndexOf(p[..|p| - 1], c)
  }

  /** The last occurrence is the only index holding `c` with no `c` after it. */
  lemma LastIndexOfUnique(p: string, c: char, k: int)
    requires -1 <= k < |p|
    requires 0 <= k ==> p[k] == c
    requires forall i :: k < i < |p| ==> p[i] != c
    ensures LastIndexOf(p, c) == k
  {
  }

  /**
   * True when some character strictly between `lo` and `hi` is not a dot;
   * `splitext` only splits off an extension whose dot follows such a character,
   * so that leading dots of a file name (".bashrc") are not an extension.
   */
  predicate HasNonDotBetween(p: string, lo: int, hi: int)
    requires 0 <= lo && hi <= |p|
  {
    exists i :: lo <= i < hi && p[i] != '.'
  }

  /**
   * `os.path.splitext(p)` for POSIX paths: the root and the extension (with
   * its dot). Splitting loses nothing, and a non-empty extension starts with
   * the dot and holds no other dot or slash. An extension is split off only
   * when the file name has a non-dot character before its dot, so a name
   * made of leading dots and dot-free text (".png") has none.
   */
  function SplitExt(p: string): (r: (string, string))
    ensures r.0 + r.1 == p
    ensures r.1 != "" ==> r.1[0] == '.'
    ensures forall i :: 0 < i < |r.1| ==> r.1[i] != '.' && r.1[i] != '/'
    ensures r.1 != "" ==> LastIndexOf(p, '/') < |r.0| && HasNonDotBetween(p, LastIndexOf(p, '/') + 1, |r.0|)
  {
    var sepIndex := LastIndexOf(p, '/');
    var dotIndex := LastIndexOf(p, '.');
    if dotIndex > sepIndex && HasNonDotBetween(p, sepIndex + 1, dotIndex)
    then
      assert p[..dotIndex] + p[dotIndex..] == p;
      (p[..dotIndex], p[dotIndex..])
    else (p, "")
  }

  /**
   * The extension without its dot, `os.path.splitext(p)[1][1:]`: a suffix of
   * the path that follows a dot and contains neither a dot nor a slash, that
   * is the text after the last dot of the file name when a non-dot character
   * of the file name precedes that dot, or empty.
   */
  function FileExtension(p: string): (e: string)
    ensures forall i :: 0 <= i < |e| ==> e[i] != '.' && e[i] != '/'
    ensures e != "" ==> |e| < |p| && p[|p| - |e| - 1] == '.' && p[|p| - |e|..] == e
    ensures e != "" ==> LastIndexOf(p, '/') < |p| - |e| - 1 && HasNonDotBetween(p, LastIndexOf(p, '/') + 1, |p| - |e| - 1)
  {
    var root := SplitExt(p).0;
    var ext := SplitExt(p).1;
    if |ext| == 0 then ""
    else
      assert p == root + ext;
      assert p[|p| - |ext|..] == ext;
      assert p[|p| - |ext| + 1..] == ext[1..];
      ext[1..]
  }

  /**
   * Joining a file stem and an extension with a dot, then taking the
   * extension back, gives the extension again — provided the extension has
   * no dot or slash and the stem's file name has a character other than a dot.
   */
  lemma {:induction false} FileExtensionOfJoin(stem: string, ext: string)
    requires forall i :: 0 <= i < |ext| ==> ext[i] != '.' && ext[i] != '/'
    requires HasNonDotBetween(stem, LastIndexOf(stem, '/') + 1, |stem|)
    ensures FileExtension(stem + "." + ext) == ext
  {
    var p := stem + "." + ext;
    var sep := LastIndexOf(stem, '/');
    assert p[|stem|] == '.';
    forall i | |stem| < i < |p|
      ensures p[i] != '.' && p[i] != '/'
    {
      assert p[i] == ext[i - |stem| - 1];
    }
    LastIndexOfUnique(p, '.', |stem|);
    forall i | sep < i < |p|
      ensures p[i] != '/'
    {
      if i < |stem| {
        assert p[i] == stem[i];
      }
    }
    assert 0 <= sep ==> p[sep] == stem[sep];
    LastIndexOfUnique(p, '/', sep);
    var w :| sep + 1 <= w < |stem| && stem[w] != '.';
    assert p[w] == stem[w];
    assert HasNonDotBetween(p, sep + 1, |stem|);
    assert SplitExt(p).1 == p[|stem|..];
    assert p[|stem|..][1..] == ext;
  }

  /** How the pixel data of a training pair is read. */
  datatype Decoder =
    | StandardImage  // 8-bit image decoded with three channels, then divided by 255
    | OpenExr        // high-dynamic-range reader; values are used as read

  datatype DecodeError = UnhandledExtension(extension: string)

  const StandardExtensions: seq<string> := ["jpg", "jpeg", "png", "bmp", "JPG", "JPEG", "PNG", "BMP"]
  const ExrExtensions: seq<string> := ["exr", "EXR"]

  /** Chooses the decoder by exact string comparison; anything else is a `TypeError`. */
  function SelectDecoder(ext: string): (r: Result<Decoder, DecodeError>)
    ensures r == Ok(StandardImage) <==> ext in StandardExtensions
    ensures r == Ok(OpenExr) <==> ext in ExrExtensions
    ensures r.Err? <==> ext !in StandardExtensions + ExrExtensions
    ensures r.Err? ==> r.error == UnhandledExtension(ext)
  {
    if ext in StandardExtensions then Ok(StandardImage)
    else if ext in ExrExtensions then Ok(OpenExr)
    else Err(UnhandledExtension(ext))
  }

  predicate IsLower(c: char) { 'a' <= c <= 'z' }
  predicate IsUpper(c: char) { 'A' <= c <= 'Z' }

  function ToUpper(s: string): (r: string)
    ensures |r| == |s|
    ensures forall i :: 0 <= i < |s| ==> r[i] == (if IsLower(s[i]) then s[i] - 'a' + 'A' else s[i])
  {
    seq(|s|, i requires 0 <= i < |s| => if IsLower(s[i]) then s[i] - 'a' + 'A' else s[i])
  }

  /**
   * The allow-list is case-sensitive: an accepted extension is written
   * entirely in lower case or entirely in upper case, so a mixed-case
   * spelling such as "Jpg" is refused although its upper-case form is accepted.
   */
  lemma AcceptedExtensionsAreSingleCase(ext: string)
    ensures SelectDecoder(ext).Ok? ==>
      (forall i :: 0 <= i < |ext| ==> IsLower(ext[i])) || (forall i :: 0 <= i < |ext| ==> IsUpper(ext[i]))
    ensures SelectDecoder(ext).Ok? ==> SelectDecoder(ToUpper(ext)) == SelectDecoder(ext)
    ensures SelectDecoder("Jpg").Err? && SelectDecoder(ToUpper("Jpg")) == Ok(StandardImage)
  {
    assert ToUpper("Jpg") == "JPG";
    if ext in StandardExtensions {
      if ext == "jpg" { assert ToUpper(ext) == "JPG"; }
      else if ext == "jpeg" { assert ToUpper(ext) == "JPEG"; }
      else if ext == "png" { assert ToUpper(ext) == "PNG"; }
      else if ext == "bmp" { assert ToUpper(ext) == "BMP"; }
      else { assert ToUpper(ext) == ext; }
    } else if ext in ExrExtensions {
      if ext == "exr" { assert ToUpper(ext) == "EXR"; }
      else { assert ToUpper(ext) == ext; }
    }
  }

  /** Pixel values as the chosen decoder hands them to the crop: standard images are divided by 255. */
  function Normalise(d: Decoder, raw: seq<real>): (r: seq<real>)
    ensures |r| == |raw|
    ensures d == OpenExr ==> r == raw
    ensures d == StandardImage ==> forall i :: 0 <= i < |raw| ==> r[i] * 255.0 == raw[i]
  {
    match d
    case StandardImage => seq(|raw|, i requires 0 <= i < |raw| => raw[i] / 255.0)
    case OpenExr => raw
  }

  /** 8-bit samples of a standard image land in the unit interval; multiplying by 255 gives them back. */
  lemma StandardNormalisationInUnitRange(raw: seq<real>)
    requires forall i :: 0 <= i < |raw| ==> 0.0 <= raw[i] <= 255.0
    ensures forall i :: 0 <= i < |raw| ==> 0.0 <= Normalise(StandardImage, raw)[i] <= 1.0
  {
    var r := Normalise(StandardImage, raw);
    forall i | 0 <= i < |raw|
      ensures 0.0 <= r[i] <= 1.0
    {
      assert r[i] * 255.0 == raw[i];
    }
  }
}
