/** Wide-character strings, case folding, and backslash-delimited paths seen both as
    character sequences and as component sequences. */
module Text {
  newtype wchar = c: int | 0 <= c < 0x1_0000

  type wstring = seq<wchar>

  const BACKSLASH: wchar := 92
  const PERIOD: wchar := 46
  const ASTERISK: wchar := 42
  const COLON: wchar := 58

  /** A literal as wide characters. */
  function Wide(literal: string): (r: wstring)
    ensures |r| == |literal|
  {
    seq(|literal|, i requires 0 <= i < |literal| =>
      if literal[i] as int < 0x1_0000 then literal[i] as int as wchar else 0)
  }

  /** Case folding is one function on characters. All that is known about it is that folding
      twice is folding once, and that only a backslash folds to a backslash and only a period to a period. */
  type CaseFolding = f: wchar -> wchar |
    forall c: wchar :: f(f(c)) == f(c) && (f(c) == BACKSLASH <==> c == BACKSLASH) && (f(c) == PERIOD <==> c == PERIOD)
    witness (c: wchar) => c

  const FoldChar: CaseFolding

  function Fold(s: wstring): (r: wstring)
    ensures |r| == |s|
  {
    seq(|s|, i requires 0 <= i < |s| => FoldChar(s[i]))
  }

  lemma FoldConcat(a: wstring, b: wstring)
    ensures Fold(a + b) == Fold(a) + Fold(b)
  {
  }

  lemma FoldIdempotent(s: wstring)
    ensures Fold(Fold(s)) == Fold(s)
  {
  }

  predicate EqualsCaseInsensitive(a: wstring, b: wstring) {
    Fold(a) == Fold(b)
  }

  predicate StartsWithCaseInsensitive(s: wstring, prefix: wstring) {
    Fold(prefix) <= Fold(s)
  }

  // ---------- Case-insensitive order ----------

  /** Lexicographic order on character values; a proper prefix comes first. */
  predicate Less(a: wstring, b: wstring) {
    b != [] && (a == [] || a[0] < b[0] || (a[0] == b[0] && Less(a[1..], b[1..])))
  }

  predicate LessCaseInsensitive(a: wstring, b: wstring) {
    Less(Fold(a), Fold(b))
  }

  /** Two strings agree before a position, and there the first one has the lower character. */
  predicate DiffersAt(a: wstring, b: wstring, i: nat) {
    i < |a| && i < |b| && a[..i] == b[..i] && a[i] < b[i]
  }

  lemma DiffersStep(a: wstring, b: wstring, i: nat)
    requires a != [] && b != []
    ensures
      DiffersAt(a, b, i) <==>
      if i == 0 then a[0] < b[0] else a[0] == b[0] && DiffersAt(a[1..], b[1..], i - 1)
  {
    if 0 < i < |a| && i < |b| {
      assert a[..i] == [a[0]] + a[1..][..i - 1] && b[..i] == [b[0]] + b[1..][..i - 1];
    }
  }

  /** What the order is: at the first position where the strings differ, the lower character decides, and a string
      that ends there comes first. */
  lemma {:induction false} LessMeaning(a: wstring, b: wstring)
    ensures Less(a, b) <==> a < b || exists i: nat :: DiffersAt(a, b, i)
  {
    if a != [] && b != [] {
      assert a == [a[0]] + a[1..] && b == [b[0]] + b[1..];
      forall i: nat
        ensures
          DiffersAt(a, b, i) <==>
          if i == 0 then a[0] < b[0] else a[0] == b[0] && DiffersAt(a[1..], b[1..], i - 1)
      {
        DiffersStep(a, b, i);
      }
      if a[0] == b[0] {
        LessMeaning(a[1..], b[1..]);
        if i: nat :| DiffersAt(a[1..], b[1..], i) {
          assert DiffersAt(a, b, i + 1);
        }
      } else {
        assert DiffersAt(a, b, 0) <==> a[0] < b[0];
      }
    }
  }

  lemma LessIrreflexive(a: wstring)
    ensures !Less(a, a)
  {
  }

  lemma {:induction false} LessTransitive(a: wstring, b: wstring, c: wstring)
    requires Less(a, b) && Less(b, c)
    ensures Less(a, c)
  {
    if a != [] && a[0] == b[0] && b[0] == c[0] {
      LessTransitive(a[1..], b[1..], c[1..]);
    }
  }

  lemma {:induction false} LessTotal(a: wstring, b: wstring)
    ensures Less(a, b) || a == b || Less(b, a)
  {
    if a != [] && b != [] && a[0] == b[0] {
      LessTotal(a[1..], b[1..]);
      assert a == [a[0]] + a[1..] && b == [b[0]] + b[1..];
    }
  }

  // ---------- Delimited strings ----------

  /** Cuts a string at every backslash. There is always at least one piece; consecutive, leading
      and trailing backslashes give empty pieces. */
  function Split(s: wstring): (r: seq<wstring>)
    ensures r != []
  {
    if s == [] then [[]]
    else
      var rest := Split(s[1..]);
      if s[0] == BACKSLASH then [[]] + rest else [[s[0]] + rest[0]] + rest[1..]
  }

  /** Puts a backslash between consecutive pieces. */
  function Join(pieces: seq<wstring>): wstring {
    if pieces == [] then []
    else if |pieces| == 1 then pieces[0]
    else pieces[0] + [BACKSLASH] + Join(pieces[1..])
  }

  lemma {:induction false} SplitConcat(a: wstring, b: wstring)
    ensures Split(a + [BACKSLASH] + b) == Split(a) + Split(b)
  {
    var s := a + [BACKSLASH] + b;
    if a == [] {
      assert s[1..] == b;
    } else {
      assert s[1..] == a[1..] + [BACKSLASH] + b;
      SplitConcat(a[1..], b);
    }
  }

  lemma {:induction false} SplitSingle(s: wstring)
    requires BACKSLASH !in s
    ensures Split(s) == [s]
  {
    if s != [] {
      SplitSingle(s[1..]);
      assert [s[0]] + s[1..] == s;
    }
  }

  lemma {:induction false} SplitPiecesHaveNoBackslash(s: wstring)
    ensures forall p :: p in Split(s) ==> BACKSLASH !in p
  {
    if s != [] {
      SplitPiecesHaveNoBackslash(s[1..]);
      var rest := Split(s[1..]);
      assert rest[0] in rest;
      forall p | p in Split(s)
        ensures BACKSLASH !in p
      {
        if p in rest {
        } else if p in rest[1..] {
          assert false;
        }
      }
    }
  }

  lemma {:induction false} JoinSplit(s: wstring)
    ensures Join(Split(s)) == s
  {
    if s != [] {
      JoinSplit(s[1..]);
      var rest := Split(s[1..]);
      if s[0] == BACKSLASH {
        assert Split(s)[1..] == rest;
      } else {
        assert Split(s)[1..] == rest[1..];
      }
    }
  }

  lemma {:induction false} SplitJoin(pieces: seq<wstring>)
    requires pieces != []
    requires forall p :: p in pieces ==> BACKSLASH !in p
    ensures Split(Join(pieces)) == pieces
    decreases |pieces|
  {
    hide Split;
    var first, rest := pieces[0], pieces[1..];
    assert first in pieces && pieces == [first] + rest;
    SplitSingle(first);
    if rest != [] {
      assert forall p :: p in rest ==> p in pieces;
      SplitJoin(rest);
      SplitConcat(first, Join(rest));
    }
  }

  lemma {:induction false} JoinConcat(a: seq<wstring>, b: seq<wstring>)
    requires a != [] && b != []
    ensures Join(a + b) == Join(a) + [BACKSLASH] + Join(b)
  {
    if |a| == 1 {
      assert (a + b)[1..] == b;
    } else {
      assert (a + b)[1..] == a[1..] + b;
      JoinConcat(a[1..], b);
    }
  }

  // ---------- Paths ----------

  /** A path as the tree and the filesystem see it: folded, non-empty components. */
  type Path = seq<wstring>

  function NonEmpty(pieces: seq<wstring>): (r: seq<wstring>) {
    if pieces == [] then []
    else if pieces[0] == [] then NonEmpty(pieces[1..])
    else [pieces[0]] + NonEmpty(pieces[1..])
  }

  function Components(s: wstring): seq<wstring> {
    NonEmpty(Split(s))
  }

  function Key(s: wstring): Path {
    Components(Fold(s))
  }

  /** No leading, trailing or doubled backslash. */
  predicate Normalised(s: wstring) {
    [] !in Split(s)
  }

  lemma {:induction false} NonEmptyConcat(a: seq<wstring>, b: seq<wstring>)
    ensures NonEmpty(a + b) == NonEmpty(a) + NonEmpty(b)
  {
    if a == [] {
      assert a + b == b;
    } else {
      assert (a + b)[1..] == a[1..] + b;
      NonEmptyConcat(a[1..], b);
    }
  }

  lemma {:induction false} NonEmptyIdentity(a: seq<wstring>)
    requires [] !in a
    ensures NonEmpty(a) == a
  {
    if a != [] {
      assert a[0] in a;
      assert forall x :: x in a[1..] ==> x in a;
      NonEmptyIdentity(a[1..]);
    }
  }

  lemma {:induction false} NonEmptyHasNoEmpty(a: seq<wstring>)
    ensures [] !in NonEmpty(a)
    ensures forall x :: x in NonEmpty(a) ==> x in a
  {
    if a != [] {
      NonEmptyHasNoEmpty(a[1..]);
    }
  }

  function FoldAll(pieces: seq<wstring>): (r: seq<wstring>)
    ensures |r| == |pieces|
  {
    seq(|pieces|, i requires 0 <= i < |pieces| => Fold(pieces[i]))
  }

  /** Folding keeps every piece boundary in place. */
  lemma {:induction false} SplitFold(s: wstring)
    ensures Split(Fold(s)) == FoldAll(Split(s))
  {
    if s != [] {
      SplitFold(s[1..]);
      var rest, f := Split(s[1..]), Fold(s);
      assert f[0] == FoldChar(s[0]) && f[1..] == Fold(s[1..]);
      if s[0] != BACKSLASH {
        assert Fold([s[0]] + rest[0]) == [f[0]] + Fold(rest[0]);
        assert FoldAll(rest)[1..] == FoldAll(rest[1..]);
      }
    }
  }

  lemma NormalisedFold(s: wstring)
    ensures Normalised(Fold(s)) <==> Normalised(s)
  {
    SplitFold(s);
    if [] in Split(s) {
      var i :| 0 <= i < |Split(s)| && Split(s)[i] == [];
      assert Split(Fold(s))[i] == [];
    }
    if [] in Split(Fold(s)) {
      var i :| 0 <= i < |Split(s)| && Split(Fold(s))[i] == [];
      assert Split(s)[i] == [];
    }
  }

  /** The component view of a normalised string is exactly its pieces. */
  lemma NormalisedKey(s: wstring)
    requires Normalised(s)
    ensures Key(s) == Split(Fold(s)) && Key(s) != []
    ensures Join(Key(s)) == Fold(s)
  {
    NormalisedFold(s);
    NonEmptyIdentity(Split(Fold(s)));
    JoinSplit(Fold(s));
  }

  /** Appending with a backslash is concatenation of components, for any two strings. */
  lemma KeyConcat(a: wstring, b: wstring)
    ensures Key(a + [BACKSLASH] + b) == Key(a) + Key(b)
  {
    FoldConcat(a + [BACKSLASH], b);
    FoldConcat(a, [BACKSLASH]);
    assert Fold([BACKSLASH]) == [BACKSLASH];
    SplitConcat(Fold(a), Fold(b));
    NonEmptyConcat(Split(Fold(a)), Split(Fold(b)));
  }

  lemma NormalisedConcat(a: wstring, b: wstring)
    ensures Normalised(a + [BACKSLASH] + b) <==> Normalised(a) && Normalised(b)
  {
    SplitConcat(a, b);
  }

  /** A file name is a single non-empty piece. */
  predicate IsFileName(s: wstring) {
    s != [] && BACKSLASH !in s
  }

  lemma FileNameKey(s: wstring)
    requires IsFileName(s)
    ensures Normalised(s) && Key(s) == [Fold(s)]
  {
    SplitSingle(s);
    assert BACKSLASH !in Fold(s);
    SplitSingle(Fold(s));
    NonEmptyIdentity([Fold(s)]);
  }

  /** Two normalised strings are equal ignoring case exactly when their components are. */
  lemma KeyInjective(a: wstring, b: wstring)
    requires Normalised(a) && Normalised(b)
    ensures Key(a) == Key(b) <==> Fold(a) == Fold(b)
  {
    NormalisedKey(a);
    NormalisedKey(b);
  }

  lemma NormalisedEnds(p: wstring)
    requires Normalised(p)
    ensures p != [] && p[0] != BACKSLASH && p[|p| - 1] != BACKSLASH
  {
    assert Split(p)[0] in Split(p);
    var q := p[..|p| - 1];
    SplitConcat(q, []);
    assert Split([])[0] == [] && [] in Split(q + [BACKSLASH] + []);
    assert p[|p| - 1] == BACKSLASH ==> p == q + [BACKSLASH] + [];
  }

  // ---------- Searching ----------

  /** Position of the last backslash, or -1. */
  function LastBackslash(s: wstring): (r: int)
    ensures -1 <= r < |s|
    ensures r >= 0 ==> s[r] == BACKSLASH
    ensures BACKSLASH !in s[r + 1..]
  {
    if s == [] then -1
    else if s[|s| - 1] == BACKSLASH then |s| - 1
    else LastBackslash(s[..|s| - 1])
  }

  lemma {:induction false} LastBackslashAt(a: wstring, b: wstring)
    requires BACKSLASH !in b
    ensures LastBackslash(a + [BACKSLASH] + b) == |a|
  {
    var s := a + [BACKSLASH] + b;
    if b != [] {
      assert s[|s| - 1] == b[|b| - 1];
      assert s[..|s| - 1] == a + [BACKSLASH] + b[..|b| - 1];
      LastBackslashAt(a, b[..|b| - 1]);
    }
  }

  /** Position of the first backslash, or the length of the string. */
  function FirstBackslash(s: wstring): (r: nat)
    ensures r <= |s|
    ensures r < |s| ==> s[r] == BACKSLASH
    ensures BACKSLASH !in s[..r]
  {
    if s == [] || s[0] == BACKSLASH then 0 else 1 + FirstBackslash(s[1..])
  }

  /** The string without the backslashes at its end. */
  function RemoveTrailing(s: wstring): (r: wstring)
    ensures r <= s
    ensures r == [] || r[|r| - 1] != BACKSLASH
    ensures forall i :: |r| <= i < |s| ==> s[i] == BACKSLASH
  {
    if s != [] && s[|s| - 1] == BACKSLASH then RemoveTrailing(s[..|s| - 1]) else s
  }
}
