/**
 * The extension filter of getFilesInDirectory in customTextAndJSONLoaders.js:
 * a directory listing is narrowed to the names whose extension, as Node's
 * `path.extname` computes it and lower-cased, equals `"." + fileType`.
 */
module Loaders {

  /** The index of the last `c` in `s`, or -1 when there is none. */
  function LastIndexOf(s: string, c: char): (k: int)
    ensures -1 <= k < |s|
    ensures k >= 0 ==> s[k] == c
    ensures forall j :: k < j < |s| ==> s[j] != c
  {
    if s == [] then -1
    else if s[|s| - 1] == c then |s| - 1
    else LastIndexOf(s[..|s| - 1], c)
  }

  /** The path without the `/` characters it ends with. */
  function TrimTrailingSlashes(path: string): (r: string)
    ensures |r| <= |path| && r == path[..|r|]
    ensures r == [] || r[|r| - 1] != '/'
    ensures '/' !in path ==> r == path
  {
    if path != [] && path[|path| - 1] == '/' then TrimTrailingSlashes(path[..|path| - 1])
    else path
  }

  /** The last component of a path: what follows its last `/`. */
  function LastComponent(path: string): (c: string)
    ensures |c| <= |path| && c == path[|path| - |c|..]
    ensures '/' !in c
    ensures '/' !in path ==> c == path
  {
    path[LastIndexOf(path, '/') + 1..]
  }

  /**
   * The extension of one path component: its suffix from its last `.`,
   * except that a component whose last `.` is its first character, or the
   * component `..`, has none.
   */
  function ComponentExt(c: string): (ext: string)
    ensures ext == [] || ext[0] == '.'
    ensures forall j :: 0 < j < |ext| ==> ext[j] != '.'
    ensures |ext| <= |c| && ext == c[|c| - |ext|..]
  {
    var dot := LastIndexOf(c, '.');
    if dot <= 0 || c == ".." then "" else c[dot..]
  }

  /**
   * Node's `path.extname` (POSIX): the extension of the last component of
   * the path once trailing `/` characters are dropped. For a bare file
   * name, as `readdir` returns, it is a suffix of the name.
   */
  function ExtName(path: string): (ext: string)
    ensures ext == [] || ext[0] == '.'
    ensures forall j :: 0 < j < |ext| ==> ext[j] != '.'
    ensures '/' !in path ==> |ext| <= |path| && ext == path[|path| - |ext|..]
  {
    ComponentExt(LastComponent(TrimTrailingSlashes(path)))
  }

  /** `toLowerCase` on one character (ASCII letters only). */
  function LowerChar(c: char): (r: char)
    ensures !('A' <= r <= 'Z')
    ensures !('A' <= c <= 'Z') ==> r == c
    ensures 'A' <= c <= 'Z' ==> r as int == c as int + 32
  {
    if 'A' <= c <= 'Z' then (c as int - 'A' as int + 'a' as int) as char else c
  }

  /**
   * `toLowerCase` on a string (ASCII letters only): the same length, no
   * upper-case letter left, each upper-case letter replaced by its
   * lower-case form and every other character kept.
   */
  function ToLower(s: string): (r: string)
    ensures |r| == |s|
    ensures forall i :: 0 <= i < |r| ==> !('A' <= r[i] <= 'Z')
    ensures forall i :: 0 <= i < |s| && !('A' <= s[i] <= 'Z') ==> r[i] == s[i]
    ensures forall i :: 0 <= i < |s| && 'A' <= s[i] <= 'Z' ==> r[i] as int == s[i] as int + 32
  {
    seq(|s|, i requires 0 <= i < |s| => LowerChar(s[i]))
  }

  /**
   * The filter's predicate: `path.extname(file).toLowerCase() === "." + fileType`.
   * A type that matches is lower-case, has no dot and is as long as the
   * name's extension without its dot. Conversely, a name whose extension is
   * exactly `"." + fileType`, for a lower-case type, matches.
   */
  predicate HasFileType(file: string, fileType: string): (b: bool)
    ensures b ==> |ExtName(file)| == |fileType| + 1
    ensures b ==> '.' !in fileType && forall i :: 0 <= i < |fileType| ==> !('A' <= fileType[i] <= 'Z')
    ensures ExtName(file) == "." + fileType && (forall i :: 0 <= i < |fileType| ==> !('A' <= fileType[i] <= 'Z')) ==> b
  {
    var ext := ExtName(file);
    MatchingTypeShape(ext, fileType);
    LowerCaseTypeMatches(ext, fileType);
    ToLower(ext) == "." + fileType
  }

  /**
   * An extension (a dot, then no dot) that lower-cases to `"." + fileType`
   * is one longer than a lower-case, dotless `fileType`.
   */
  lemma MatchingTypeShape(ext: string, fileType: string)
    requires ext == [] || ext[0] == '.'
    requires forall j :: 0 < j < |ext| ==> ext[j] != '.'
    ensures ToLower(ext) == "." + fileType ==>
              |ext| == |fileType| + 1 && '.' !in fileType &&
              forall i :: 0 <= i < |fileType| ==> !('A' <= fileType[i] <= 'Z')
  {
    if ToLower(ext) == "." + fileType {
      forall i | 0 <= i < |fileType| ensures fileType[i] != '.' && !('A' <= fileType[i] <= 'Z') {
        assert fileType[i] == ToLower(ext)[i + 1];
      }
    }
  }

  /** A lower-case extension `"." + fileType` is its own lower-cased form. */
  lemma LowerCaseTypeMatches(ext: string, fileType: string)
    ensures ext == "." + fileType && (forall i :: 0 <= i < |fileType| ==> !('A' <= fileType[i] <= 'Z')) ==>
              ToLower(ext) == "." + fileType
  {
    if ext == "." + fileType && forall i :: 0 <= i < |fileType| ==> !('A' <= fileType[i] <= 'Z') {
      forall j | 0 <= j < |ext| ensures ToLower(ext)[j] == ext[j] {
        if j > 0 { assert ext[j] == fileType[j - 1]; }
      }
    }
  }

  /** `a` is `b` with some elements left out, in the same order. */
  predicate IsSubsequence<T(==)>(a: seq<T>, b: seq<T>)
    decreases |b|
  {
    if a == [] then true
    else if b == [] then false
    else (a[0] == b[0] && IsSubsequence(a[1..], b[1..])) || IsSubsequence(a, b[1..])
  }

  /** No name occurs twice, as in a directory listing. */
  predicate Distinct<T(==)>(s: seq<T>)
  {
    forall i, j :: 0 <= i < j < |s| ==> s[i] != s[j]
  }

  /**
   * The filter of getFilesInDirectory over the names `readdir` returned:
   * an order-preserving subsequence that keeps a name exactly when it has
   * the requested file type.
   */
  function GetFilesInDirectory(files: seq<string>, fileType: string): (kept: seq<string>)
    ensures IsSubsequence(kept, files)
    ensures forall f :: f in kept ==> f in files && HasFileType(f, fileType)
    ensures forall f :: f in files && HasFileType(f, fileType) ==> f in kept
    ensures |kept| <= |files|
  {
    if files == [] then []
    else if HasFileType(files[0], fileType) then
      assert ([files[0]] + GetFilesInDirectory(files[1..], fileType))[1..]
          == GetFilesInDirectory(files[1..], fileType);
      [files[0]] + GetFilesInDirectory(files[1..], fileType)
    else GetFilesInDirectory(files[1..], fileType)
  }

  /**
   * The filter keeps every copy of a matching name: a name of the requested
   * type occurs as often in the output as in the listing.
   */
  lemma {:induction false} FilterKeepsEveryCopy(files: seq<string>, fileType: string, f: string)
    requires HasFileType(f, fileType)
    ensures multiset(GetFilesInDirectory(files, fileType))[f] == multiset(files)[f]
  {
    if files != [] {
      FilterKeepsEveryCopy(files[1..], fileType, f);
      CountSplit(files, f);
      if HasFileType(files[0], fileType) {
        CountCons(files[0], GetFilesInDirectory(files[1..], fileType), f);
      }
    }
  }

  /** Occurrences of `y` in a non-empty sequence: those in its head and in its tail. */
  lemma CountSplit<T>(s: seq<T>, y: T)
    requires s != []
    ensures multiset(s)[y] == multiset(s[1..])[y] + (if s[0] == y then 1 else 0)
  {
    CountCons(s[0], s[1..], y);
    assert s == [s[0]] + s[1..];
  }

  /** Occurrences of `y` in `[x] + s`: one more than in `s` exactly when `x` is `y`. */
  lemma CountCons<T>(x: T, s: seq<T>, y: T)
    ensures multiset([x] + s)[y] == multiset(s)[y] + (if x == y then 1 else 0)
  {
    assert multiset([x] + s) == multiset([x]) + multiset(s);
  }

  /** A one-name listing keeps its name exactly when it has the file type. */
  lemma FilterSingleton(file: string, fileType: string)
    ensures GetFilesInDirectory([file], fileType) == if HasFileType(file, fileType) then [file] else []
  {
    assert [file][1..] == [];
  }

  /** Filtering a second time with the same file type changes nothing. */
  lemma {:induction false} FilterIdempotent(files: seq<string>, fileType: string)
    ensures GetFilesInDirectory(GetFilesInDirectory(files, fileType), fileType)
         == GetFilesInDirectory(files, fileType)
  {
    if files != [] {
      FilterIdempotent(files[1..], fileType);
      if HasFileType(files[0], fileType) {
        var kept := GetFilesInDirectory(files, fileType);
        assert kept[0] == files[0] && kept[1..] == GetFilesInDirectory(files[1..], fileType);
      }
    }
  }

  /** Dropping the first name of a listing keeps it free of repeats. */
  lemma DistinctTail<T>(s: seq<T>)
    requires Distinct(s) && s != []
    ensures Distinct(s[1..]) && s[0] !in s[1..]
  {
    forall i, j | 0 <= i < j < |s| - 1 ensures s[1..][i] != s[1..][j] {
      assert s[1..][i] == s[i + 1] && s[1..][j] == s[j + 1];
    }
  }

  /** A new name in front of a listing without repeats keeps it free of repeats. */
  lemma DistinctCons<T>(x: T, s: seq<T>)
    requires Distinct(s) && x !in s
    ensures Distinct([x] + s)
  {
    var t := [x] + s;
    forall i, j | 0 <= i < j < |t| ensures t[i] != t[j] {
      assert t[j] == s[j - 1];
      if i > 0 {
        assert t[i] == s[i - 1];
      }
    }
  }

  /** A listing without repeated names is filtered into one without repeated names. */
  lemma {:induction false} FilterKeepsDistinct(files: seq<string>, fileType: string)
    requires Distinct(files)
    ensures Distinct(GetFilesInDirectory(files, fileType))
  {
    if files != [] {
      DistinctTail(files);
      FilterKeepsDistinct(files[1..], fileType);
      if HasFileType(files[0], fileType) {
        DistinctCons(files[0], GetFilesInDirectory(files[1..], fileType));
      }
    }
  }

  /** The last `c` of `s` is at `k` when `s[k]` is one and none follows it. */
  lemma LastIndexOfIs(s: string, c: char, k: int)
    requires 0 <= k < |s| && s[k] == c
    requires forall j :: k < j < |s| ==> s[j] != c
    ensures LastIndexOf(s, c) == k
  {
  }

  /** A bare name, as `readdir` returns, is its own last component. */
  lemma BareNameExt(name: string)
    requires '/' !in name
    ensures ExtName(name) == ComponentExt(name)
  {
    assert LastComponent(TrimTrailingSlashes(name)) == name;
  }

  /**
   * A component `stem.ext` whose last dot is past its first character
   * (`..json` included, `..` not) has the extension `.ext`.
   */
  lemma ComponentExtOfDotted(stem: string, ext: string)
    requires '.' !in ext && stem != [] && (stem != "." || ext != "")
    ensures ComponentExt(stem + "." + ext) == "." + ext
  {
    var name := stem + "." + ext;
    forall j | |stem| < j < |name| ensures name[j] != '.' {
      assert name[j] == ext[j - |stem| - 1];
    }
    LastIndexOfIs(name, '.', |stem|);
    assert name != ".." by {
      if |name| == 2 { assert stem == name[..1]; }
    }
    assert name[|stem|..] == "." + ext;
  }

  /** A component whose only dot is its first character has no extension. */
  lemma ComponentExtOfHidden(ext: string)
    requires '.' !in ext
    ensures ComponentExt("." + ext) == ""
  {
    var name := "." + ext;
    forall j | 0 < j < |name| ensures name[j] != '.' {
      assert name[j] == ext[j - 1];
    }
    LastIndexOfIs(name, '.', 0);
  }

  /** `.JSON` lower-cases to `.json`. */
  lemma LowerJson()
    ensures ToLower(".JSON") == "." + "json"
  {
    var l := ToLower(".JSON");
    assert l[0] == '.' && l[1] == 'j' && l[2] == 's' && l[3] == 'o' && l[4] == 'n';
  }

  /**
   * A bare name `stem.ext` whose last dot is past its first character
   * (`..json` included, `..` not) has the extension `.ext`.
   */
  lemma ExtNameOfDottedName(stem: string, ext: string)
    requires '/' !in stem && '/' !in ext && '.' !in ext
    requires stem != [] && (stem != "." || ext != "")
    ensures ExtName(stem + "." + ext) == "." + ext
  {
    BareNameExt(stem + "." + ext);
    ComponentExtOfDotted(stem, ext);
  }

  /**
   * The match is case-insensitive on the name: `report.JSON`, like any
   * bare name ending in `.JSON` after a non-empty stem (`..JSON` too), is
   * kept for the type `json`.
   */
  lemma UpperCaseExtensionMatches(stem: string)
    requires '/' !in stem && stem != []
    ensures HasFileType(stem + ".JSON", "json")
    ensures GetFilesInDirectory([stem + ".JSON"], "json") == [stem + ".JSON"]
  {
    UpperCaseExtName(stem);
    LowerJson();
    HasFileTypeByExt(stem + ".JSON", "json", ".JSON");
    FilterSingleton(stem + ".JSON", "json");
  }

  /** A name has a file type when its extension lower-cases to `"." + fileType`. */
  lemma HasFileTypeByExt(file: string, fileType: string, ext: string)
    requires ExtName(file) == ext && ToLower(ext) == "." + fileType
    ensures HasFileType(file, fileType)
  {
  }

  /** The extension of `stem.JSON` is `.JSON`. */
  lemma UpperCaseExtName(stem: string)
    requires '/' !in stem && stem != []
    ensures ExtName(stem + ".JSON") == ".JSON"
  {
    assert stem + ".JSON" == stem + "." + "JSON";
    assert "." + "JSON" == ".JSON";
    ExtNameOfDottedName(stem, "JSON");
  }

  /** A bare name whose only dot is its first character has no extension. */
  lemma ExtNameOfHiddenName(ext: string)
    requires '/' !in ext && '.' !in ext
    ensures ExtName("." + ext) == ""
  {
    BareNameExt("." + ext);
    ComponentExtOfHidden(ext);
  }

  /**
   * A bare name whose only dot comes first (`.json`) has no extension, so
   * it is dropped whatever type is requested.
   */
  lemma LeadingDotNameIsDropped(ext: string, fileType: string)
    requires '/' !in ext && '.' !in ext
    ensures GetFilesInDirectory(["." + ext], fileType) == []
  {
    ExtNameOfHiddenName(ext);
    assert ToLower([]) == [];
    FilterSingleton("." + ext, fileType);
  }

  /**
   * Only the name is lower-cased, not the requested type: a type with an
   * upper-case letter (at position `i`) matches nothing.
   */
  lemma UpperCaseFileTypeMatchesNothing(files: seq<string>, fileType: string, i: int)
    requires 0 <= i < |fileType| && 'A' <= fileType[i] <= 'Z'
    ensures GetFilesInDirectory(files, fileType) == []
  {
  }
}
