/** Path handling in src/utils.cpp: `to_lower`, the extension test of
    `drop_callback` against `kExt`, the parts of `std::filesystem::path`
    it uses (generic POSIX form, '/' as the only separator), and
    `copy_path_to_buffer`. */
module Paths {
  import opened Wrappers
  import opened Viewer

  /** `std::tolower` in the "C" locale: only 'A'..'Z' change. */
  function LowerChar(c: char): char {
    if 'A' <= c <= 'Z' then (c as int - 'A' as int + 'a' as int) as char else c
  }

  /** `to_lower`. */
  function ToLower(s: string): (r: string)
    ensures |r| == |s|
    ensures forall i :: 0 <= i < |s| ==> r[i] == LowerChar(s[i])
  {
    seq(|s|, i requires 0 <= i < |s| => LowerChar(s[i]))
  }

  predicate IsLower(s: string) {
    forall i :: 0 <= i < |s| ==> !('A' <= s[i] <= 'Z')
  }

  /** Lower-casing yields lower case and leaves lower case alone. */
  lemma ToLowerIdempotent(s: string)
    ensures IsLower(ToLower(s))
    ensures IsLower(s) <==> ToLower(s) == s
  {
    if IsLower(s) {
      assert ToLower(s) == s;
    }
    if ToLower(s) == s {
      forall i | 0 <= i < |s| ensures !('A' <= s[i] <= 'Z') {
        assert ToLower(s)[i] == s[i];
      }
    }
  }

  function LastIndexOf(s: string, c: char): (r: Option<nat>)
    ensures r.Some? ==> r.value < |s| && s[r.value] == c
    ensures r.Some? ==> forall j :: r.value < j < |s| ==> s[j] != c
    ensures r.None? ==> forall j :: 0 <= j < |s| ==> s[j] != c
  {
    if s == [] then None
    else if s[|s| - 1] == c then Some(|s| - 1)
    else LastIndexOf(s[..|s| - 1], c)
  }

  /** `path::filename()`: what follows the last separator. */
  function FileName(p: string): (f: string)
    ensures EndsWith(p, f)
    ensures forall i :: 0 <= i < |f| ==> f[i] != '/'
    ensures f == p || p[|p| - |f| - 1] == '/'
  {
    match LastIndexOf(p, '/')
    case None => p
    case Some(i) => p[i + 1..]
  }

  /** `path::extension()`: from the last '.' of the file name, unless the
      name is "." or "..", has no '.', or its only '.' is its first
      character (".profile"). */
  function Extension(p: string): (e: string)
    ensures EndsWith(p, e)
    ensures e != [] ==> e[0] == '.'
    ensures forall i :: 1 <= i < |e| ==> e[i] != '.' && e[i] != '/'
  {
    var f := FileName(p);
    if f == "." || f == ".." then ""
    else DotSuffix(f)
  }

  /** What follows the last '.' of a file name, with the '.', unless that
      '.' is its first character. */
  function DotSuffix(f: string): (e: string)
    ensures EndsWith(f, e)
    ensures e != [] ==> e[0] == '.'
    ensures forall i :: 1 <= i < |e| ==> e[i] != '.'
  {
    match LastIndexOf(f, '.')
    case None => ""
    case Some(i) => if i == 0 then "" else f[i..]
  }

  /** `suffix` is the last `|suffix|` characters of `s`. */
  predicate EndsWith(s: string, suffix: string) {
    |suffix| <= |s| && forall k :: 0 <= k < |suffix| ==> suffix[k] == s[|s| - |suffix| + k]
  }

  /** `is_opencv_supported_ext`. */
  predicate IsSupportedExt(extLower: string) {
    extLower in ImageExtensions
  }

  /** The extension test of `drop_callback`: the lower-cased extension is
      non-empty and listed. */
  predicate HasImageExtension(p: string) {
    var extLower := ToLower(Extension(p));
    extLower != "" && IsSupportedExt(extLower)
  }

  /** Every entry of `kExt` is a '.' followed by lower-case text, which is
      why `drop_callback` lower-cases an extension before testing it. */
  lemma ImageExtensionsForm()
    ensures forall e :: e in ImageExtensions ==> |e| >= 3 && e[0] == '.' && IsLower(e)
  {

  }

  /** The test ignores case: an upper-case extension is accepted through
      lower-casing though it is not itself listed. */
  lemma UpperCaseExtensionAccepted()
    ensures HasImageExtension("a.PNG") && ".PNG" !in ImageExtensions
  {
    assert LastIndexOf("a.PNG", '/') == None;
    assert "a.PNG"[1] == '.';
    assert LastIndexOf("a.PNG", '.') == Some(1);
    assert Extension("a.PNG") == ".PNG";
    assert ToLower(".PNG") == ".png";
  }

  /** Only the last extension of the file name counts. */
  lemma LastExtensionCounts()
    ensures HasImageExtension("d/a.b.TiF")
  {
    assert "d/a.b.TiF"[1] == '/';
    assert LastIndexOf("d/a.b.TiF", '/') == Some(1);
    assert FileName("d/a.b.TiF") == "a.b.TiF";
    assert "a.b.TiF"[3] == '.';
    assert LastIndexOf("a.b.TiF", '.') == Some(3);
    assert Extension("d/a.b.TiF") == ".TiF";
    assert ToLower(".TiF") == ".tif";
  }

  /** A hidden file's leading dot is not an extension. */
  lemma HiddenFileRejected()
    ensures !HasImageExtension(".png")
  {
    assert LastIndexOf(".png", '/') == None;
    assert ".png"[0] == '.' && ".png"[1] != '.' && ".png"[2] != '.' && ".png"[3] != '.';
    assert LastIndexOf(".png", '.') == Some(0);
    assert Extension(".png") == "";
  }

  /** How many path characters `copy_path_to_buffer` stores in a buffer of
      `size` chars: all but the last char are usable. */
  function StoredLength(pathLength: nat, size: nat): (k: nat)
    ensures k <= pathLength && (size > 0 ==> k < size) && (size == 0 ==> k == 0)
    ensures size > 0 ==> k == pathLength || k + 1 == size
  {
    var capacity := if size > 0 then size - 1 else 0;
    Min(pathLength, capacity)
  }

  /** The buffer after `copy_path_to_buffer`: the tail of the path that fits,
      then zeros. */
  function PathBufferContents(path: string, size: nat): (r: seq<char>)
    ensures |r| == size
    ensures forall i :: 0 <= i < size ==>
      r[i] == if i < StoredLength(|path|, size) then path[|path| - StoredLength(|path|, size) + i] else '\0'
  {
    var k := StoredLength(|path|, size);
    path[|path| - k..] + seq(size - k, _ => '\0')
  }

  /** `copy_path_to_buffer` on the 512-char buffer: the last byte is always
      the terminator and the first min(|path|, 511) bytes are the path's tail. */
  lemma InputBufferLayout(path: string)
    ensures var r := PathBufferContents(path, InputBufferSize);
      && r[InputBufferSize - 1] == '\0'
      && r[..Min(|path|, InputBufferSize - 1)] == path[|path| - Min(|path|, InputBufferSize - 1)..]
      && (|path| < InputBufferSize ==> r[..|path|] == path)
  {
  }

  /** The C string a buffer holds: the chars before the first '\0'. */
  function CString(buf: seq<char>): string {
    if buf == [] || buf[0] == '\0' then [] else [buf[0]] + CString(buf[1..])
  }

  /** A path without NUL characters reads back from the buffer as its
      stored tail. */
  lemma {:induction false} CStringOfPathBuffer(path: string, size: nat)
    requires size > 0
    requires forall i :: 0 <= i < |path| ==> path[i] != '\0'
    ensures CString(PathBufferContents(path, size)) == path[|path| - StoredLength(|path|, size)..]
  {
    var k := StoredLength(|path|, size);
    CStringPrefix(path[|path| - k..], seq(size - k, _ => '\0'));
  }

  lemma {:induction false} CStringPrefix(s: string, zeros: seq<char>)
    requires forall i :: 0 <= i < |s| ==> s[i] != '\0'
    requires zeros != [] && zeros[0] == '\0'
    ensures CString(s + zeros) == s
  {
    if s == [] {
      assert s + zeros == zeros;
    } else {
      assert (s + zeros)[1..] == s[1..] + zeros;
      CStringPrefix(s[1..], zeros);
    }
  }

  /** `copy_path_to_buffer(state, path)`: zero the buffer, then copy the
      tail of the path that leaves room for a terminator. */
  method CopyPathToBuffer(st: ImageState, path: string)
    modifies st.inputBuffer
    ensures st.inputBuffer[..] == PathBufferContents(path, st.inputBuffer.Length)
  {
    var buf := st.inputBuffer;
    var i := 0;
    while i < buf.Length
      invariant 0 <= i <= buf.Length
      invariant forall j :: 0 <= j < i ==> buf[j] == '\0'
    {
      buf[i] := '\0';
      i := i + 1;
    }
    var capacity := if buf.Length > 0 then buf.Length - 1 else 0;
    if capacity == 0 {
      assert buf[..] == PathBufferContents(path, buf.Length);
      return;
    }
    var slice := path;
    if |slice| > capacity {
      slice := slice[|slice| - capacity..];
    }
    assert slice == path[|path| - StoredLength(|path|, buf.Length)..];
    var j := 0;
    while j < |slice|
      invariant 0 <= j <= |slice|
      invariant forall m :: 0 <= m < j ==> buf[m] == slice[m]
      invariant forall m :: j <= m < buf.Length ==> buf[m] == '\0'
    {
      buf[j] := slice[j];
      j := j + 1;
    }
    assert buf[..] == PathBufferContents(path, buf.Length);
  }
}
