/**
 * Object paths in the `site-images` storage bucket: the extension rule
 * `name.split(".").pop()` shared by the media, mixtape and event screens,
 * the paths those screens upload to, and the media screen's recovery of the
 * object path from a stored public URL.
 */
module Uploads {
  import opened Wrappers
  import opened Text

  /** A file chosen in a file input. */
  datatype File = File(name: string, size: nat, mimeType: string)

  /** The part of every public URL of the bucket that precedes the object path. */
  const Marker := "/site-images/"

  /**
   * The file extension: the text after the last '.', or the whole name when
   * it has no '.'. Defined by scanning back from the end; `ExtensionShape`
   * says what it is and `ExtensionIsSplitPop` shows it equal to the
   * source's `name.split(".").pop()`.
   */
  function Extension(name: string): string
    decreases |name|
  {
    if |name| == 0 || name[|name| - 1] == '.' then []
    else Extension(name[..|name| - 1]) + [name[|name| - 1]]
  }

  /**
   * The extension is a '.'-free tail of the name: the whole name when it
   * has no '.', otherwise what follows a '.'.
   */
  lemma {:induction false} ExtensionShape(name: string)
    ensures '.' !in Extension(name)
    ensures |Extension(name)| <= |name| && name[|name| - |Extension(name)|..] == Extension(name)
    ensures '.' in name ==> |Extension(name)| < |name| && name[|name| - |Extension(name)| - 1] == '.'
    ensures '.' !in name ==> Extension(name) == name
    decreases |name|
  {
    if |name| > 0 && name[|name| - 1] != '.' {
      var c := name[|name| - 1];
      var init := name[..|name| - 1];
      var ext := Extension(init);
      ExtensionShape(init);
      assert name == init + [c];
      assert Extension(name) == ext + [c];
      assert '.' in name <==> '.' in init;
      assert name[|name| - |ext| - 1..] == init[|init| - |ext|..] + [c];
      assert '.' in init ==> name[|name| - |ext| - 2] == init[|init| - |ext| - 1];
    }
  }

  /**
   * A '.'-free tail of a name that is either the whole name or preceded by
   * a '.' is unique: two such tails are equal.
   */
  lemma {:induction false} DotFreeTailUnique(name: string, a: string, b: string)
    requires '.' !in a && |a| <= |name| && name[|name| - |a|..] == a
    requires '.' !in b && |b| <= |name| && name[|name| - |b|..] == b
    requires |a| == |name| || name[|name| - |a| - 1] == '.'
    requires |b| == |name| || name[|name| - |b| - 1] == '.'
    ensures a == b
  {
    assert forall j :: |name| - |a| <= j < |name| ==> name[j] == a[j - (|name| - |a|)];
    assert forall j :: |name| - |b| <= j < |name| ==> name[j] == b[j - (|name| - |b|)];
  }

  /**
   * `name.split(".").pop()` written as the source writes it: the last piece
   * of splitting at every '.'. It is a '.'-free tail of the name: the whole
   * name when there is no '.', otherwise what follows a '.'.
   */
  function SplitPop(name: string): (last: string)
    ensures '.' !in last
    ensures |last| <= |name| && name[|name| - |last|..] == last
    ensures '.' in name ==> |last| < |name| && name[|name| - |last| - 1] == '.'
    ensures '.' !in name ==> last == name
  {
    var parts := Split(name, ".");
    JoinEndsWithLast(parts, ".");
    NoCharNoOccurrence(Last(parts), '.');
    NoCharNoOccurrence(name, '.');
    Last(parts)
  }

  /** Scanning back to the last '.' and splitting then popping give the same extension. */
  lemma {:induction false} ExtensionIsSplitPop(name: string)
    ensures Extension(name) == SplitPop(name)
  {
    ExtensionShape(name);
    DotFreeTailUnique(name, Extension(name), SplitPop(name));
  }

  /** A character absent from the name is absent from its extension. */
  lemma {:induction false} ExtensionOmits(name: string, c: char)
    requires c !in name
    ensures c !in Extension(name)
  {
    var ext := Extension(name);
    ExtensionShape(name);
    forall k | 0 <= k < |ext| ensures ext[k] != c {
      assert ext[k] == name[|name| - |ext| + k];
    }
  }

  /** Whatever precedes the last dot, the extension is what follows it. */
  lemma {:induction false} ExtensionAfterLastDot(prefix: string, ext: string)
    requires '.' !in ext
    ensures Extension(prefix + "." + ext) == ext
  {
    var s := prefix + "." + ext;
    ExtensionShape(s);
    assert s[|s| - |ext| - 1] == '.';
    assert s[|s| - |ext|..] == ext;
    DotFreeTailUnique(s, Extension(s), ext);
  }

  /** `${folder}/${baseName}.${fileExt}`: where a chosen file is stored. */
  function UploadPath(folder: string, baseName: string, file: File): (path: string)
    ensures |path| > |folder| && path[..|folder| + 1] == folder + "/"
  {
    var ext := Extension(file.name);
    FolderPrefix(folder, baseName, ext);
    folder + "/" + baseName + "." + ext
  }

  /** A path built as `${folder}/${baseName}.${ext}` starts with the folder and a slash. */
  lemma FolderPrefix(folder: string, baseName: string, ext: string)
    ensures var path := folder + "/" + baseName + "." + ext;
      |path| > |folder| && path[..|folder| + 1] == folder + "/"
  {
    var path := folder + "/" + baseName + "." + ext;
    assert path[..|folder| + 1] == folder + "/";
  }

  /** A stored file keeps the extension of the chosen file. */
  lemma UploadPathKeepsExtension(folder: string, baseName: string, file: File)
    ensures Extension(UploadPath(folder, baseName, file)) == Extension(file.name)
  {
    ExtensionShape(file.name);
    ExtensionAfterLastDot(folder + "/" + baseName, Extension(file.name));
  }

  /**
   * `filePath.split("/site-images/")[1]`: the text between the first and the
   * second marker (or the end), absent when the marker does not occur.
   */
  function StoragePath(filePath: string): (r: Option<string>)
    ensures r.None? <==> !Contains(filePath, Marker)
    ensures r.Some? ==> !Contains(r.value, Marker)
    ensures match FindFrom(filePath, Marker, 0)
      case None => r.None?
      case Some(i) => r == Some(BeforeFirst(filePath[i + |Marker|..], Marker))
  {
    var parts := Split(filePath, Marker);
    if |parts| > 1 then
      var i := FindFrom(filePath, Marker, 0).value;
      SplitHead(filePath[i + |Marker|..], Marker);
      Some(parts[1])
    else None
  }

  /** The first marker of `prefix + Marker + tail` is the one after the prefix, when none starts inside the prefix. */
  lemma FirstMarkerAt(prefix: string, tail: string)
    requires forall j: nat :: j < |prefix| ==> !OccursAt(prefix + Marker, Marker, j)
    ensures FindFrom(prefix + Marker + tail, Marker, 0) == Some(|prefix|)
  {
    var url := prefix + Marker + tail;
    assert OccursAt(url, Marker, |prefix|) by {
      assert url[|prefix|..|prefix| + |Marker|] == Marker;
    }
    forall j: nat | j < |prefix| ensures !OccursAt(url, Marker, j) {
      assert url[..|prefix| + |Marker|] == prefix + Marker;
      assert !OccursAt(prefix + Marker, Marker, j);
      assert (prefix + Marker)[j..j + |Marker|] == url[j..j + |Marker|];
    }
    FindFromIs(url, Marker, |prefix|);
  }

  /**
   * A URL made of a prefix, the marker and an object path free of the marker
   * gives that object path back, provided the marker does not already start
   * inside the prefix.
   */
  lemma StoragePathRecovers(prefix: string, path: string)
    requires forall j: nat :: j < |prefix| ==> !OccursAt(prefix + Marker, Marker, j)
    requires !Contains(path, Marker)
    ensures StoragePath(prefix + Marker + path) == Some(path)
  {
    var url := prefix + Marker + path;
    FirstMarkerAt(prefix, path);
    assert url[|prefix| + |Marker|..] == path;
    assert FindFrom(path, Marker, 0).None?;
  }

  /**
   * With a second marker in the URL, the object path is the text between the
   * first and the second marker; what follows the second marker is dropped.
   */
  lemma StoragePathTakesFirstSegment(prefix: string, a: string, rest: string)
    requires forall j: nat :: j < |prefix| ==> !OccursAt(prefix + Marker, Marker, j)
    requires forall j: nat :: j < |a| ==> !OccursAt(a + Marker, Marker, j)
    ensures StoragePath(prefix + Marker + a + Marker + rest) == Some(a)
  {
    var tail := a + Marker + rest;
    var url := prefix + Marker + tail;
    assert prefix + Marker + a + Marker + rest == url;
    FirstMarkerAt(prefix, tail);
    assert url[|prefix| + |Marker|..] == tail;
    FirstMarkerAt(a, rest);
    assert tail[..|a|] == a;
  }

  /** Where the marker occurs, there is a '/' at its start and another twelve characters later. */
  lemma MarkerSlashes(s: string, j: nat)
    requires OccursAt(s, Marker, j)
    ensures j + 12 < |s| && s[j] == '/' && s[j + 12] == '/'
  {
    assert s[j..j + 13] == Marker;
  }

  /** A string with at most one '/' cannot contain the marker, which has two. */
  lemma NoMarkerWithOneSlash(s: string, slash: nat)
    requires forall i :: 0 <= i < |s| && s[i] == '/' ==> i == slash
    ensures !Contains(s, Marker)
  {
    forall j: nat | j <= |s| && OccursAt(s, Marker, j) ensures false {
      MarkerSlashes(s, j);
    }
  }
}
