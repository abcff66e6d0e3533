/** Turning a path with current-directory and parent-directory references into one without. */
module PathResolution {
  import opened Wrappers
  import opened Text

  const CURRENT_DIRECTORY: wstring := [PERIOD]
  const PARENT_DIRECTORY: wstring := [PERIOD, PERIOD]

  datatype ResolutionError = TooManyParentReferences | HierarchyTooDeep

  /** A component that stands for itself. */
  predicate Ordinary(component: wstring) {
    component != [] && component != CURRENT_DIRECTORY && component != PARENT_DIRECTORY
  }

  predicate AllOrdinary(components: seq<wstring>) {
    forall c :: c in components ==> Ordinary(c) && BACKSLASH !in c
  }

  // ---------- What resolution means ----------

  /** One component read, with the components resolved so far. The first component is never dropped. */
  function Step(resolved: seq<wstring>, component: wstring, capacity: nat): (r: Result<seq<wstring>, ResolutionError>)
    ensures r.Success? && |resolved| <= capacity ==> |r.value| <= capacity
  {
    if component == [] || component == CURRENT_DIRECTORY then Success(resolved)
    else if component == PARENT_DIRECTORY then
      if |resolved| < 2 then Failure(TooManyParentReferences) else Success(resolved[..|resolved| - 1])
    else if |resolved| == capacity then Failure(HierarchyTooDeep)
    else Success(resolved + [component])
  }

  function Steps(resolved: seq<wstring>, components: seq<wstring>, capacity: nat)
    : Result<seq<wstring>, ResolutionError>
    decreases |components|
  {
    if components == [] then Success(resolved)
    else
      match Step(resolved, components[0], capacity)
      case Failure(error) => Failure(error)
      case Success(next) => Steps(next, components[1..], capacity)
  }

  predicate EndsWithBackslash(s: wstring) {
    s != [] && s[|s| - 1] == BACKSLASH
  }

  /** A resolved path: its components, with a backslash at the end if the original had one. */
  function Rebuilt(components: seq<wstring>, trailing: bool): wstring {
    if components == [] then [] else Join(components) + if trailing then [BACKSLASH] else []
  }

  function Resolve(path: wstring, capacity: nat): Result<wstring, ResolutionError> {
    match Steps([], Split(path), capacity)
    case Failure(error) => Failure(error)
    case Success(components) => Success(Rebuilt(components, EndsWithBackslash(path)))
  }

  // ---------- The code ----------

  function LengthWithDelimiters(components: seq<wstring>): nat {
    if components == [] then 0
    else LengthWithDelimiters(components[..|components| - 1]) + |components[|components| - 1]| + 1
  }

  /** Every component followed by a backslash. */
  function Delimited(components: seq<wstring>): (r: wstring)
    ensures |r| == LengthWithDelimiters(components)
  {
    if components == [] then []
    else Delimited(components[..|components| - 1]) + components[|components| - 1] + [BACKSLASH]
  }

  lemma {:induction false} DelimitedIsJoined(components: seq<wstring>)
    requires components != []
    ensures Delimited(components) == Join(components) + [BACKSLASH]
  {
    var n := |components| - 1;
    if n > 0 {
      DelimitedIsJoined(components[..n]);
      JoinConcat(components[..n], [components[n]]);
      assert components == components[..n] + [components[n]];
    } else {
      assert components[..0] == [] && Delimited(components[..0]) == [];
    }
  }

  lemma LengthOfAppended(components: seq<wstring>, c: wstring)
    ensures LengthWithDelimiters(components + [c]) == LengthWithDelimiters(components) + |c| + 1
  {
    assert (components + [c])[..|components|] == components;
  }

  lemma StepsUnfold(resolved: seq<wstring>, components: seq<wstring>, i: nat, capacity: nat)
    requires i < |components|
    ensures
      Steps(resolved, components[i..], capacity) ==
      match Step(resolved, components[i], capacity)
      case Failure(error) => Failure(error)
      case Success(next) => Steps(next, components[i + 1..], capacity)
  {
    assert components[i..][0] == components[i] && components[i..][1..] == components[i + 1..];
  }

  /** Resolution with an explicit stack and a running count of characters. The count is always that of the
      stack, so removing a component never removes more characters than there are. */
  method PathResolveRelativeToAbsolute(path: wstring, capacity: nat) returns (r: Result<wstring, ResolutionError>)
    ensures r == Resolve(path, capacity)
  {
    var hasTrailingPathDelimiter := EndsWithBackslash(path);
    var tokens := Split(path);
    var components: seq<wstring> := [];
    var resolvedPathLength := 0;
    assert tokens[0..] == tokens;
    for i := 0 to |tokens|
      invariant |components| <= capacity
      invariant resolvedPathLength == LengthWithDelimiters(components)
      invariant Steps(components, tokens[i..], capacity) == Steps([], tokens, capacity)
    {
      var component := tokens[i];
      StepsUnfold(components, tokens, i, capacity);
      if component == [] || component == CURRENT_DIRECTORY {
        continue;
      } else if component == PARENT_DIRECTORY {
        if |components| < 2 {
          return Failure(TooManyParentReferences);
        }
        var lengthToRemove := |components[|components| - 1]| + 1;
        assert lengthToRemove <= resolvedPathLength;
        components := components[..|components| - 1];
        resolvedPathLength := resolvedPathLength - lengthToRemove;
      } else {
        if |components| == capacity {
          return Failure(HierarchyTooDeep);
        }
        LengthOfAppended(components, component);
        components := components + [component];
        resolvedPathLength := resolvedPathLength + |component| + 1;
      }
    }
    assert tokens[|tokens|..] == [];
    var resolvedPath := BuildPath(components, hasTrailingPathDelimiter);
    return Success(resolvedPath);
  }

  method BuildPath(components: seq<wstring>, hasTrailingPathDelimiter: bool) returns (resolvedPath: wstring)
    ensures resolvedPath == Rebuilt(components, hasTrailingPathDelimiter)
  {
    resolvedPath := [];
    if components != [] {
      for i := 0 to |components|
        invariant resolvedPath == Delimited(components[..i])
      {
        assert components[..i + 1][..i] == components[..i];
        resolvedPath := resolvedPath + components[i] + [BACKSLASH];
      }
      assert components[..|components|] == components;
      DelimitedIsJoined(components);
      if !hasTrailingPathDelimiter {
        resolvedPath := resolvedPath[..|resolvedPath| - 1];
        assert resolvedPath == Join(components) == Join(components) + [];
      }
    }
  }

  // ---------- Properties ----------

  lemma {:induction false} StepsAreOrdinary(resolved: seq<wstring>, components: seq<wstring>, capacity: nat)
    requires AllOrdinary(resolved) && forall c :: c in components ==> BACKSLASH !in c
    requires |resolved| <= capacity
    ensures
      Steps(resolved, components, capacity).Success? ==>
        var r := Steps(resolved, components, capacity).value;
        AllOrdinary(r) && |r| <= capacity
    decreases |components|
  {
    if components != [] {
      assert components[0] in components;
      var next := Step(resolved, components[0], capacity);
      if next.Success? {
        StepsAreOrdinary(next.value, components[1..], capacity);
      }
    }
  }

  /** Ordinary components are taken over as they are. */
  lemma {:induction false} StepsKeepOrdinary(resolved: seq<wstring>, components: seq<wstring>, capacity: nat)
    requires AllOrdinary(components) && |resolved| + |components| <= capacity
    ensures Steps(resolved, components, capacity) == Success(resolved + components)
    decreases |components|
  {
    if components == [] {
      assert resolved + components == resolved;
    } else {
      assert components[0] in components;
      StepsKeepOrdinary(resolved + [components[0]], components[1..], capacity);
      assert resolved + components == (resolved + [components[0]]) + components[1..];
    }
  }

  lemma {:induction false} StepsConcat(resolved: seq<wstring>, a: seq<wstring>, b: seq<wstring>, capacity: nat)
    ensures
      Steps(resolved, a + b, capacity) ==
      match Steps(resolved, a, capacity)
      case Failure(error) => Failure(error)
      case Success(next) => Steps(next, b, capacity)
    decreases |a|
  {
    if a == [] {
      assert a + b == b;
    } else {
      assert (a + b)[0] == a[0] && (a + b)[1..] == a[1..] + b;
      match Step(resolved, a[0], capacity)
      case Failure(error) =>
      case Success(next) => StepsConcat(next, a[1..], b, capacity);
    }
  }

  /** The components of a resolved path: none is empty or a reference, and there are not too many. */
  ghost predicate IsResolved(path: wstring, capacity: nat) {
    exists components: seq<wstring>, trailing: bool ::
      AllOrdinary(components) && |components| <= capacity && path == Rebuilt(components, trailing)
  }

  lemma SplitRebuilt(components: seq<wstring>, trailing: bool)
    requires AllOrdinary(components) && components != []
    ensures Split(Rebuilt(components, trailing)) == components + if trailing then [[]] else []
    ensures EndsWithBackslash(Rebuilt(components, trailing)) == trailing
    ensures RemoveTrailing(Rebuilt(components, trailing)) == Join(components)
    ensures Normalised(Join(components))
  {
    var s := Join(components);
    SplitJoin(components);
    SplitConcat(s, []);
    assert s + [BACKSLASH] + [] == s + [BACKSLASH];
    assert Split([]) == [[]];
    assert [] !in components;
    NormalisedEnds(s);
    assert (s + [BACKSLASH])[..|s|] == s;
    assert s + [] == s;
  }

  /** Whatever comes out of resolution has only ordinary components. */
  lemma ResolvedHasNoReferences(path: wstring, capacity: nat)
    ensures Resolve(path, capacity).Success? ==> IsResolved(Resolve(path, capacity).value, capacity)
  {
    SplitPiecesHaveNoBackslash(path);
    StepsAreOrdinary([], Split(path), capacity);
  }

  /** A path that has only ordinary components resolves to itself. */
  lemma ResolvedStaysTheSame(path: wstring, capacity: nat)
    requires IsResolved(path, capacity)
    ensures Resolve(path, capacity) == Success(path)
  {
    var components, trailing :|
      AllOrdinary(components) && |components| <= capacity && path == Rebuilt(components, trailing);
    if components == [] {
      assert path == [] && Split(path) == [path] && Split(path)[1..] == [];
      assert Steps([], [], capacity) == Success([]);
    } else {
      SplitRebuilt(components, trailing);
      StepsKeepOrdinary([], components, capacity);
      assert [] + components == components && components + [] == components;
      StepsConcat([], components, [[]], capacity);
      assert Steps(components, [[]], capacity) == Success(components);
    }
  }

  /** Resolving a second time changes nothing. */
  lemma ResolveIsIdempotent(path: wstring, capacity: nat)
    requires Resolve(path, capacity).Success?
    ensures Resolve(Resolve(path, capacity).value, capacity) == Resolve(path, capacity)
  {
    ResolvedHasNoReferences(path, capacity);
    ResolvedStaysTheSame(Resolve(path, capacity).value, capacity);
  }

  /** Entering a directory and leaving it again by a parent reference leads nowhere, wherever in the path
      that happens, as long as it is not the first component and there is room for it. */
  lemma ParentReferenceCancels(before: seq<wstring>, c: wstring, after: seq<wstring>, capacity: nat)
    requires Ordinary(c) && Steps([], before, capacity).Success?
    requires 0 < |Steps([], before, capacity).value| < capacity
    ensures Steps([], before + [c, PARENT_DIRECTORY] + after, capacity) == Steps([], before + after, capacity)
  {
    var resolved := Steps([], before, capacity).value;
    StepsConcat([], before, [c, PARENT_DIRECTORY] + after, capacity);
    StepsConcat([], before, after, capacity);
    StepsConcat(resolved, [c, PARENT_DIRECTORY], after, capacity);
    assert before + [c, PARENT_DIRECTORY] + after == before + ([c, PARENT_DIRECTORY] + after);
    assert [c, PARENT_DIRECTORY][1..] == [PARENT_DIRECTORY] && [PARENT_DIRECTORY][1..] == [];
    assert (resolved + [c])[..|resolved|] == resolved;
    assert Steps(resolved + [c], [PARENT_DIRECTORY], capacity) == Success(resolved);
  }

  /** Empty components and references to the current directory can be left out anywhere. */
  lemma NothingIsSkipped(before: seq<wstring>, c: wstring, after: seq<wstring>, capacity: nat)
    requires c == [] || c == CURRENT_DIRECTORY
    ensures Steps([], before + [c] + after, capacity) == Steps([], before + after, capacity)
  {
    StepsConcat([], before, [c] + after, capacity);
    StepsConcat([], before, after, capacity);
    assert before + [c] + after == before + ([c] + after);
    assert ([c] + after)[1..] == after;
  }

  /** So paths that only differ in such a component between two backslashes resolve to the same. */
  lemma SkippedInPaths(a: wstring, c: wstring, b: wstring, capacity: nat)
    requires c == [] || c == CURRENT_DIRECTORY
    ensures Resolve(a + [BACKSLASH] + c + [BACKSLASH] + b, capacity) == Resolve(a + [BACKSLASH] + b, capacity)
  {
    hide Split, Steps;
    var long, short := a + [BACKSLASH] + c + [BACKSLASH] + b, a + [BACKSLASH] + b;
    assert long == a + [BACKSLASH] + (c + [BACKSLASH] + b);
    SplitConcat(a, c + [BACKSLASH] + b);
    SplitConcat(c, b);
    SplitConcat(a, b);
    SplitSingle(c);
    assert Split(a) + ([c] + Split(b)) == Split(a) + [c] + Split(b);
    NothingIsSkipped(Split(a), c, Split(b), capacity);
    assert EndsWithBackslash(long) == EndsWithBackslash(short);
  }

  /** How deep a sequence of components leads: each ordinary one leads further down, each parent reference back up. */
  function Height(components: seq<wstring>): int {
    if components == [] then 0
    else
      var last := components[|components| - 1];
      Height(components[..|components| - 1])
      + if last == PARENT_DIRECTORY then -1 else if last == [] || last == CURRENT_DIRECTORY then 0 else 1
  }

  /** A parent reference with less than two components to go back to. */
  predicate ClimbsTooHigh(components: seq<wstring>, i: nat) {
    i < |components| && components[i] == PARENT_DIRECTORY && Height(components[..i]) < 2
  }

  /** One component more than there may be. */
  predicate GoesTooDeep(components: seq<wstring>, i: nat, capacity: nat) {
    i < |components| && Ordinary(components[i]) && Height(components[..i]) == capacity
  }

  predicate Breaks(components: seq<wstring>, i: nat, capacity: nat) {
    ClimbsTooHigh(components, i) || GoesTooDeep(components, i, capacity)
  }

  /** The component from which no parent reference further on leads back. */
  ghost predicate Remains(components: seq<wstring>, i: nat, depth: nat) {
    && i < |components| && Ordinary(components[i]) && Height(components[..i]) == depth
    && forall j :: i < j <= |components| ==> Height(components[..j]) > depth
  }

  lemma StepsOfLast(components: seq<wstring>, capacity: nat)
    requires components != []
    ensures
      var n := |components| - 1;
      Steps([], components, capacity) ==
      match Steps([], components[..n], capacity)
      case Failure(error) => Failure(error)
      case Success(next) => Step(next, components[n], capacity)
  {
    var n := |components| - 1;
    var last := components[n];
    StepsConcat([], components[..n], [last], capacity);
    assert components[..n] + [last] == components;
    match Steps([], components[..n], capacity)
    case Failure(error) =>
    case Success(next) =>
      assert [last][1..] == [];
      assert Steps(next, [last], capacity) == Step(next, last, capacity);
  }

  lemma BreaksEarlier(components: seq<wstring>, i: nat, capacity: nat)
    requires i < |components| - 1
    ensures ClimbsTooHigh(components, i) <==> ClimbsTooHigh(components[..|components| - 1], i)
    ensures GoesTooDeep(components, i, capacity) <==> GoesTooDeep(components[..|components| - 1], i, capacity)
    ensures Breaks(components, i, capacity) <==> Breaks(components[..|components| - 1], i, capacity)
  {
    assert components[..|components| - 1][..i] == components[..i];
  }

  predicate NothingBreaks(components: seq<wstring>, n: nat, capacity: nat) {
    forall i: nat :: i < n ==> !Breaks(components, i, capacity)
  }

  /** The first component at which resolution climbs too high or goes too deep, and which of them it is. */
  predicate BreaksFirst(components: seq<wstring>, i: nat, error: ResolutionError, capacity: nat) {
    && NothingBreaks(components, i, capacity)
    && match error
       case TooManyParentReferences => ClimbsTooHigh(components, i)
       case HierarchyTooDeep => GoesTooDeep(components, i, capacity)
  }

  /** When resolution succeeds: at no component does it climb too high or go too deep. Otherwise it reports what
      happens at the first component where it does. */
  lemma {:induction false} ResolutionMeaning(components: seq<wstring>, capacity: nat)
    ensures
      match Steps([], components, capacity)
      case Success(resolved) =>
        |resolved| == Height(components) && NothingBreaks(components, |components|, capacity)
      case Failure(error) => exists i: nat :: BreaksFirst(components, i, error, capacity)
    decreases |components|
  {
    hide Steps, Step, Breaks, ClimbsTooHigh, GoesTooDeep, BreaksFirst, NothingBreaks;
    var n := |components| - 1;
    if components == [] {
      NothingToBreak(capacity);
    } else {
      ResolutionMeaning(components[..n], capacity);
      StepsOfLast(components, capacity);
      match Steps([], components[..n], capacity)
      case Failure(error) =>
        var i: nat :| BreaksFirst(components[..n], i, error, capacity);
        BreaksFirstEarlier(components, i, error, capacity);
      case Success(resolved) =>
        LastBreaks(components, resolved, capacity);
    }
  }

  lemma NothingToBreak(capacity: nat)
    ensures Steps([], [], capacity) == Success([]) && Height([]) == 0 && NothingBreaks([], 0, capacity)
  {
  }

  lemma NothingBreaksEarlier(components: seq<wstring>, i: nat, capacity: nat)
    requires i < |components|
    ensures NothingBreaks(components, i, capacity) <==> NothingBreaks(components[..|components| - 1], i, capacity)
  {
    hide ClimbsTooHigh, GoesTooDeep, Breaks;
    var shorter := components[..|components| - 1];
    forall j: nat | j < i
      ensures Breaks(components, j, capacity) <==> Breaks(shorter, j, capacity)
    {
      BreaksEarlier(components, j, capacity);
    }
  }

  lemma BreaksFirstEarlier(components: seq<wstring>, i: nat, error: ResolutionError, capacity: nat)
    requires components != [] && BreaksFirst(components[..|components| - 1], i, error, capacity)
    ensures BreaksFirst(components, i, error, capacity)
  {
    hide NothingBreaks;
    assert i < |components| - 1;
    BreaksEarlier(components, i, capacity);
    NothingBreaksEarlier(components, i, capacity);
  }

  /** What the last component does to a sequence that resolves so far. */
  lemma LastBreaks(components: seq<wstring>, resolved: seq<wstring>, capacity: nat)
    requires components != [] && |resolved| == Height(components[..|components| - 1])
    requires NothingBreaks(components[..|components| - 1], |components| - 1, capacity)
    ensures
      match Step(resolved, components[|components| - 1], capacity)
      case Success(next) => |next| == Height(components) && NothingBreaks(components, |components|, capacity)
      case Failure(error) => BreaksFirst(components, |components| - 1, error, capacity)
  {
    hide Step, Height, ClimbsTooHigh, GoesTooDeep, NothingBreaks;
    var n := |components| - 1;
    NothingBreaksEarlier(components, n, capacity);
    NothingBreaksNext(components, n, capacity);
    LastStep(components, resolved, capacity);
  }

  lemma LastStep(components: seq<wstring>, resolved: seq<wstring>, capacity: nat)
    requires components != [] && |resolved| == Height(components[..|components| - 1])
    ensures
      var n := |components| - 1;
      match Step(resolved, components[n], capacity)
      case Success(next) =>
        |next| == Height(components) && !ClimbsTooHigh(components, n) && !GoesTooDeep(components, n, capacity)
      case Failure(TooManyParentReferences) => ClimbsTooHigh(components, n)
      case Failure(HierarchyTooDeep) => GoesTooDeep(components, n, capacity)
  {
  }

  lemma NothingBreaksNext(components: seq<wstring>, n: nat, capacity: nat)
    ensures
      NothingBreaks(components, n + 1, capacity) <==>
      NothingBreaks(components, n, capacity) && !Breaks(components, n, capacity)
  {
    hide Breaks;
  }

  /** What the resolved path consists of: at every depth, the component that remains there. */
  lemma {:induction false} ResolvedComponents(components: seq<wstring>, capacity: nat, depth: nat)
    requires Steps([], components, capacity).Success? && depth < |Steps([], components, capacity).value|
    ensures
      exists i: nat :: Remains(components, i, depth) && Steps([], components, capacity).value[depth] == components[i]
    decreases |components|
  {
    var n := |components| - 1;
    var resolved := Steps([], components, capacity).value;
    ResolutionMeaning(components, capacity);
    ResolutionMeaning(components[..n], capacity);
    StepsOfLast(components, capacity);
    assert components[..n + 1] == components;
    if Ordinary(components[n]) && depth == |resolved| - 1 {
      assert Remains(components, n, depth);
    } else {
      ResolvedComponents(components[..n], capacity, depth);
      var i: nat :| Remains(components[..n], i, depth)
        && Steps([], components[..n], capacity).value[depth] == components[..n][i];
      RemainsLonger(components, i, depth);
    }
  }

  lemma RemainsLonger(components: seq<wstring>, i: nat, depth: nat)
    requires components != [] && Remains(components[..|components| - 1], i, depth) && Height(components) > depth
    ensures Remains(components, i, depth)
  {
    hide Height, Ordinary;
    var shorter := components[..|components| - 1];
    assert components[..|components|] == components;
    forall j | 0 <= j < |components|
      ensures shorter[..j] == components[..j]
    {
    }
  }
}
