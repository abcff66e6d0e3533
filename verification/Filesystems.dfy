/** The filesystem as an abstract map from paths to entities, and absolute path strings with their
    optional Windows namespace prefix. */
module Filesystems {
  import opened Text
  import opened PrefixTrees

  datatype Kind = File | Directory

  /** Whatever lies below something lies below a directory. */
  ghost predicate ClosedUnderParents(m: map<Path, Kind>) {
    forall p :: p in m && |p| > 1 ==> Parent(p) in m && m[Parent(p)] == Directory
  }

  type Filesystem = m: map<Path, Kind> | ClosedUnderParents(m) witness map[]

  // ---------- Namespace prefixes and drive letters ----------

  const PREFIX_NT: wstring := [92, 63, 63, 92]
  const PREFIX_WIN32_FILE: wstring := [92, 92, 63, 92]
  const PREFIX_WIN32_DEVICE: wstring := [92, 92, 46, 92]

  function NamespacePrefix(path: wstring): (r: wstring)
    ensures r <= path
  {
    if PREFIX_NT <= path then PREFIX_NT
    else if PREFIX_WIN32_FILE <= path then PREFIX_WIN32_FILE
    else if PREFIX_WIN32_DEVICE <= path then PREFIX_WIN32_DEVICE
    else []
  }

  function WithoutPrefix(path: wstring): wstring {
    path[|NamespacePrefix(path)|..]
  }

  /** Which characters are letters is left open, except that those of the English alphabet are. */
  type LetterTest = f: wchar -> bool |
    forall c: wchar :: (65 <= c <= 90 || 97 <= c <= 122) ==> f(c)
    witness (c: wchar) => true

  const IsAlpha: LetterTest

  predicate BeginsWithDriveLetter(path: wstring) {
    var rest := WithoutPrefix(path);
    |rest| >= 3 && IsAlpha(rest[0]) && rest[1] == COLON && rest[2] == BACKSLASH
  }

  predicate IsNamespacePrefix(s: wstring) {
    s in {[], PREFIX_NT, PREFIX_WIN32_FILE, PREFIX_WIN32_DEVICE}
  }

  lemma PrefixIsRecovered(prefix: wstring, p: wstring)
    requires IsNamespacePrefix(prefix) && p != [] && p[0] != BACKSLASH
    ensures NamespacePrefix(prefix + p) == prefix && WithoutPrefix(prefix + p) == p
  {
    var s := prefix + p;
    if prefix == [] {
      assert s == p;
    } else {
      assert s[..4] == prefix && s[4..] == p;
      assert s[0] == prefix[0] && s[1] == prefix[1] && s[2] == prefix[2];
    }
  }

  lemma TrailingIsRemoved(p: wstring, suffix: wstring)
    requires p != [] && p[|p| - 1] != BACKSLASH && suffix in {[], [BACKSLASH]}
    ensures RemoveTrailing(p + suffix) == p
  {
    if suffix == [] {
      assert p + suffix == p;
    } else {
      assert (p + suffix)[..|p + suffix| - 1] == p;
    }
  }

  // ---------- Looking at the filesystem ----------

  function FsKey(path: wstring): Path {
    Key(WithoutPrefix(path))
  }

  predicate Exists(fs: Filesystem, path: wstring) {
    FsKey(path) in fs
  }

  predicate IsDirectory(fs: Filesystem, path: wstring) {
    FsKey(path) in fs && fs[FsKey(path)] == Directory
  }

  lemma KeyIgnoresTrailing(p: wstring, suffix: wstring)
    requires Normalised(p) && suffix in {[], [BACKSLASH]}
    ensures Key(p + suffix) == Key(p)
  {
    hide Normalised, Split, Key;
    if suffix == [] {
      assert p + suffix == p;
    } else {
      assert p + suffix == p + [BACKSLASH] + [];
      KeyConcat(p, []);
      EmptyKey();
    }
  }

  lemma EmptyKey()
    ensures Key([]) == []
  {
    assert Fold([]) == [];
  }

  lemma FsKeyOfWrapped(prefix: wstring, p: wstring, suffix: wstring)
    requires IsNamespacePrefix(prefix) && Normalised(p) && suffix in {[], [BACKSLASH]}
    ensures FsKey(prefix + p + suffix) == Key(p)
    ensures NamespacePrefix(prefix + p + suffix) == prefix
    ensures RemoveTrailing(WithoutPrefix(prefix + p + suffix)) == p
  {
    hide NamespacePrefix, RemoveTrailing, Key, Normalised, IsNamespacePrefix;
    NormalisedEnds(p);
    var tail := p + suffix;
    assert prefix + p + suffix == prefix + tail && tail[0] == p[0];
    PrefixIsRecovered(prefix, tail);
    TrailingIsRemoved(p, suffix);
    KeyIgnoresTrailing(p, suffix);
  }
}
