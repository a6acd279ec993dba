/**
 * internal/utils/picture.go, ModifyPictureExtension: the file is renamed so
 * that its extension names the format its contents decode as. Opening and
 * decoding the file, and the rename itself, are inputs.
 */
module Picture {
  import opened Text

  /**
   * filepath.Ext: from the last '.' after the last '/' to the end, or ""
   * when there is no such '.'.
   */
  function Ext(path: string): (e: string)
    ensures HasSuffix(path, e)
    ensures e == "" || (e[0] == '.' && forall k :: 1 <= k < |e| ==> e[k] != '.' && e[k] != '/')
    ensures e == "" ==> forall k :: 0 <= k < |path| && path[k] == '.' ==> exists m :: k < m < |path| && path[m] == '/'
  {
    if path == [] then ""
    else
      var last := path[|path| - 1];
      if last == '/' then ""
      else if last == '.' then "."
      else
        var e := Ext(path[..|path| - 1]);
        ExtStep(path, e);
        if e == "" then "" else e + [last]
  }

  /** The recursive case of Ext: a last character other than '.' or '/' extends the extension found before it. */
  lemma ExtStep(path: string, e: string)
    requires path != [] && path[|path| - 1] != '/' && path[|path| - 1] != '.'
    requires var p := path[..|path| - 1];
      HasSuffix(p, e) &&
      (e == "" || (e[0] == '.' && forall k :: 1 <= k < |e| ==> e[k] != '.' && e[k] != '/')) &&
      (e == "" ==> forall k :: 0 <= k < |p| && p[k] == '.' ==> exists m :: k < m < |p| && p[m] == '/')
    ensures var r := if e == "" then "" else e + [path[|path| - 1]];
      HasSuffix(path, r) &&
      (r == "" || (r[0] == '.' && forall k :: 1 <= k < |r| ==> r[k] != '.' && r[k] != '/')) &&
      (r == "" ==> forall k :: 0 <= k < |path| && path[k] == '.' ==> exists m :: k < m < |path| && path[m] == '/')
  {
    var p := path[..|path| - 1];
    assert path == p + [path[|path| - 1]];
    if e == "" {
      forall k | 0 <= k < |path| && path[k] == '.'
        ensures exists m :: k < m < |path| && path[m] == '/'
      {
        assert p[k] == '.';
        var m :| k < m < |p| && p[m] == '/';
        assert path[m] == '/';
      }
    } else {
      assert path[|path| - |e| - 1..] == p[|p| - |e|..] + [path[|path| - 1]];
    }
  }

  /** strings.ToLower on ASCII letters. */
  function Lower(s: string): (r: string)
    ensures |r| == |s|
    ensures forall k :: 0 <= k < |s| ==> r[k] == (if 'A' <= s[k] <= 'Z' then (s[k] as int + 32) as char else s[k])
  {
    seq(|s|, k requires 0 <= k < |s| => if 'A' <= s[k] <= 'Z' then (s[k] as int + 32) as char else s[k])
  }

  predicate IsLower(s: string) {
    forall k :: 0 <= k < |s| ==> !('A' <= s[k] <= 'Z')
  }

  /** ".jpg" for "jpeg", otherwise "." + the format name. */
  function TargetExt(format: string): string {
    if format == "jpeg" then ".jpg" else "." + format
  }

  /** The path the file is renamed to: the lowercased extension trimmed off, the target put on. */
  function TargetPath(path: string, format: string): string {
    TrimSuffix(path, Lower(Ext(path))) + TargetExt(format)
  }

  /** What opening and decoding the file gives: the format name on success. */
  datatype Probe = CannotOpen | CannotDecode | Format(name: string)

  datatype Outcome = AccessError | UnknownType | Kept | Renamed(to: string) | RenameError(to: string)

  /**
   * ModifyPictureExtension: errors for a file that cannot be opened or
   * decoded, with no rename; no rename when the lowercased extension is
   * already the target; otherwise a rename to TargetPath.
   */
  function ModifyPictureExtension(path: string, probe: Probe, renameFails: bool): (r: Outcome)
    ensures probe.CannotOpen? <==> r == AccessError
    ensures probe.CannotDecode? <==> r == UnknownType
    ensures r == Kept <==> probe.Format? && Lower(Ext(path)) == TargetExt(probe.name)
    ensures r.Renamed? || r.RenameError? ==>
      probe.Format? && Lower(Ext(path)) != TargetExt(probe.name) && r.to == TargetPath(path, probe.name) &&
      (r.Renamed? <==> !renameFails)
  {
    match probe
    case CannotOpen => AccessError
    case CannotDecode => UnknownType
    case Format(name) =>
      var ext := Lower(Ext(path));
      var target := TargetExt(name);
      if ext == target then Kept
      else
        var finalPath := TrimSuffix(path, ext) + target;
        if renameFails then RenameError(finalPath) else Renamed(finalPath)
  }

  /** With an extension already in lower case, the rename keeps the stem and swaps the extension. */
  lemma StemKept(path: string, format: string)
    requires IsLower(Ext(path))
    ensures TargetPath(path, format) == path[..|path| - |Ext(path)|] + TargetExt(format)
  {
    var e := Ext(path);
    assert Lower(e) == e;
  }

  /** A path without an extension gets the target appended. */
  lemma NoExtensionAppends(path: string, format: string)
    requires Ext(path) == ""
    ensures TargetPath(path, format) == path + TargetExt(format)
  {
    assert Lower("") == "";
    assert path[|path| - 0..] == "";
    assert path[..|path| - 0] == path;
  }

  /**
   * An upper-case extension that is not the target is not trimmed, since
   * the lowercased one is not a suffix: "a.PNG" decoded as jpeg becomes
   * "a.PNG.jpg".
   */
  lemma UpperCaseExtensionKept()
    ensures ModifyPictureExtension("a.PNG", Format("jpeg"), false) == Renamed("a.PNG.jpg")
  {
    UpperCaseExt();
    assert TrimSuffix("a.PNG", ".png") == "a.PNG" by {
      assert "a.PNG"[1..] == ".PNG" != ".png";
    }
    assert TargetExt("jpeg") == ".jpg";
    assert "a.PNG" + ".jpg" == "a.PNG.jpg";
  }

  lemma UpperCaseExt()
    ensures Lower(Ext("a.PNG")) == ".png"
  {
    assert "a.PNG" == "a" + ".PNG";
    ExtOfAppended("a", ".PNG");
    assert Lower(".PNG") == ".png";
  }

  /** A '.' before the last '/' does not start an extension. */
  lemma DotInDirectoryIgnored()
    ensures Ext("v1.0/p0") == ""
  {
    assert "v1.0/p0"[..6] == "v1.0/p" && "v1.0/p"[..5] == "v1.0/";
  }

  /** The extension of s + "." + name is "." + name when name has no '.' or '/'. */
  lemma {:induction false} ExtOfAppended(s: string, t: string)
    requires |t| >= 1 && t[0] == '.' && forall k :: 1 <= k < |t| ==> t[k] != '.' && t[k] != '/'
    ensures Ext(s + t) == t
    decreases |t|
  {
    if |t| > 1 {
      var u := s + t;
      assert u[..|u| - 1] == s + t[..|t| - 1];
      ExtOfAppended(s, t[..|t| - 1]);
    } else {
      assert (s + t)[|s + t| - 1] == '.';
    }
  }

  /** A format name as the decoders report it: lower case, no '.' or '/'. */
  predicate PlainFormat(name: string) {
    IsLower(name) && forall k :: 0 <= k < |name| ==> name[k] != '.' && name[k] != '/'
  }

  /** Once renamed, the file is not renamed again: the operation is idempotent. */
  lemma RenameIdempotent(path: string, format: string, renameFails: bool)
    requires PlainFormat(format)
    ensures ModifyPictureExtension(TargetPath(path, format), Format(format), renameFails) == Kept
  {
    var t := TargetExt(format);
    TargetExtPlain(format);
    var s := TrimSuffix(path, Lower(Ext(path)));
    ExtOfAppended(s, t);
    assert TargetPath(path, format) == s + t;
    LowerOfLower(t);
  }

  /** An extension written in lower case that is not the target is swapped for it, the stem kept. */
  lemma RenameSwapsExtension(stem: string, e: string, format: string, renameFails: bool)
    requires |e| >= 1 && e[0] == '.' && IsLower(e) && forall k :: 1 <= k < |e| ==> e[k] != '.' && e[k] != '/'
    requires e != TargetExt(format)
    ensures ModifyPictureExtension(stem + e, Format(format), renameFails) ==
      (if renameFails then RenameError(stem + TargetExt(format)) else Renamed(stem + TargetExt(format)))
  {
    ExtOfAppended(stem, e);
    LowerOfLower(e);
    TrimAppended(stem, e);
  }

  lemma TrimAppended(a: string, b: string)
    ensures TrimSuffix(a + b, b) == a
  {
    assert (a + b)[|a|..] == b;
    assert (a + b)[..|a|] == a;
  }

  lemma TargetExtPlain(format: string)
    requires PlainFormat(format)
    ensures var t := TargetExt(format);
      |t| >= 1 && t[0] == '.' && IsLower(t) && forall k :: 1 <= k < |t| ==> t[k] != '.' && t[k] != '/'
  {
    if format != "jpeg" {
      var t := "." + format;
      assert forall k :: 1 <= k < |t| ==> t[k] == format[k - 1];
    }
  }

  lemma LowerOfLower(s: string)
    requires IsLower(s)
    ensures Lower(s) == s
  {
  }
}
