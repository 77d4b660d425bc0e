/**
 * Classification and rewrite of the path expressions of a template. A
 * reference is the `original` text of a path expression; its head is the
 * text before the first `.`.
 */
module References {
  import opened Wrappers
  import opened JsStrings

  /** Names that always refer to route state, matched with `startsWith`. */
  const THIS_VARIABLES_IN_MODEL: seq<string> := ["model", "target"]
  /** Names that always refer to component state, matched with `startsWith`. */
  const THIS_VARIABLES_IN_COMPONENT: seq<string> := ["elementId"]

  const ARGUMENT_SIGIL: string := "@"
  const THIS_PREFIX: string := "this."

  /** `original.split('.')[0]`. */
  function Head(original: string): string {
    Split(original, ".")[0]
  }

  /** `variables.map(variable => original.startsWith(variable))`. */
  function StartsWithEach(variables: seq<string>, original: string): seq<bool> {
    seq(|variables|, k requires 0 <= k < |variables| => variables[k] <= original)
  }

  /** `bools.reduce((accumulator, currentValue) => accumulator || currentValue, acc)`. */
  function OrReduce(bools: seq<bool>, acc: bool): bool {
    if bools == [] then acc else OrReduce(bools[1..], acc || bools[0])
  }

  /** The reserved-name test: some reserved name is a prefix of the whole reference. */
  function StartsWithAny(variables: seq<string>, original: string): bool {
    OrReduce(StartsWithEach(variables, original), false)
  }

  /** How a component-template reference is treated, in order of precedence. */
  datatype Verdict =
    | Conflict   // head is both a named argument and a scoped property: left for manual resolution
    | Named      // head is a named argument: `@` prefix
    | Scoped     // head is a scoped property, or the reference starts with a reserved name: `this.` prefix
    | Untouched  // a helper, a global or anything else

  function Classify(original: string, named: seq<string>, scoped: seq<string>): Verdict {
    var head := Head(original);
    var isNamed := head in named;
    var isScoped := head in scoped;
    var isThisArg := StartsWithAny(THIS_VARIABLES_IN_COMPONENT, original);
    if isNamed && isScoped then Conflict
    else if isNamed then Named
    else if isScoped || isThisArg then Scoped
    else Untouched
  }

  /** The new `original` of a component-template path expression. */
  function RewriteComponentPath(original: string, named: seq<string>, scoped: seq<string>): string {
    match Classify(original, named, scoped)
    case Named => ARGUMENT_SIGIL + original
    case Scoped => THIS_PREFIX + original
    case _ => original
  }

  /** The new `original` of a route-template path expression. */
  function RewriteRoutePath(original: string): string {
    if StartsWithAny(THIS_VARIABLES_IN_MODEL, original) then THIS_PREFIX + original else original
  }

  /** Every path expression of a component template, rewritten. */
  function RewriteComponentPaths(paths: seq<string>, named: seq<string>, scoped: seq<string>): seq<string> {
    seq(|paths|, i requires 0 <= i < |paths| => RewriteComponentPath(paths[i], named, scoped))
  }

  /** Every path expression of a route template, rewritten. */
  function RewriteRoutePaths(paths: seq<string>): seq<string> {
    seq(|paths|, i requires 0 <= i < |paths| => RewriteRoutePath(paths[i]))
  }

  /** The conflicting references of a template, one per occurrence, in visit order. */
  function ConflictingPaths(paths: seq<string>, named: seq<string>, scoped: seq<string>): seq<string> {
    if paths == [] then []
    else
      var last := paths[|paths| - 1];
      ConflictingPaths(paths[..|paths| - 1], named, scoped)
        + (if Classify(last, named, scoped) == Conflict then [last] else [])
  }

  /** The head is a prefix of the reference, holds no `.`, and is either all of it or followed by `.`. */
  lemma HeadSpec(original: string)
    ensures Head(original) <= original
    ensures '.' !in Head(original)
    ensures |Head(original)| == |original| || original[|Head(original)|] == '.'
  {
    var head := Head(original);
    match IndexOf(original, ".")
    case None =>
      assert head == original;
      forall j | 0 <= j < |original| ensures original[j] != '.' {
        assert !OccursAt(original, ".", j);
      }
    case Some(i) =>
      assert head == original[..i];
      assert original[i..i + 1] == ".";
      forall j | 0 <= j < i ensures original[j] != '.' {
        assert !OccursAt(original, ".", j);
        assert original[j..j + 1] == [original[j]];
      }
  }

  lemma {:induction false} OrReduceSpec(bools: seq<bool>, acc: bool)
    ensures OrReduce(bools, acc) <==> acc || exists k :: 0 <= k < |bools| && bools[k]
  {
    if bools != [] {
      OrReduceSpec(bools[1..], acc || bools[0]);
      if exists k :: 0 <= k < |bools| && bools[k] {
        var k :| 0 <= k < |bools| && bools[k];
        if k > 0 { assert bools[1..][k - 1]; }
      }
      if exists k :: 0 <= k < |bools[1..]| && bools[1..][k] {
        var k :| 0 <= k < |bools[1..]| && bools[1..][k];
        assert bools[k + 1];
      }
    }
  }

  /** The map/reduce over `startsWith` holds exactly when some listed name is a prefix of the whole reference. */
  lemma StartsWithAnySpec(variables: seq<string>, original: string)
    ensures StartsWithAny(variables, original) <==> exists v :: v in variables && v <= original
  {
    var bools := StartsWithEach(variables, original);
    OrReduceSpec(bools, false);
    if exists v :: v in variables && v <= original {
      var v :| v in variables && v <= original;
      var k :| 0 <= k < |variables| && variables[k] == v;
      assert bools[k];
    }
    if StartsWithAny(variables, original) {
      var k :| 0 <= k < |bools| && bools[k];
      assert variables[k] in variables && variables[k] <= original;
    }
  }

  /** A component reference starts with a reserved name exactly when it starts with `elementId`. */
  lemma ComponentReservedSpec(original: string)
    ensures StartsWithAny(THIS_VARIABLES_IN_COMPONENT, original) <==> "elementId" <= original
  {
    StartsWithAnySpec(THIS_VARIABLES_IN_COMPONENT, original);
    if "elementId" <= original {
      assert "elementId" in THIS_VARIABLES_IN_COMPONENT;
    } else {
      forall v | v in THIS_VARIABLES_IN_COMPONENT ensures !(v <= original) {
        assert v == "elementId";
      }
    }
  }

  /** A reference whose head is both named and scoped is left unchanged and reported as a conflict. */
  lemma ConflictLeftUnchanged(original: string, named: seq<string>, scoped: seq<string>)
    requires Head(original) in named && Head(original) in scoped
    ensures Classify(original, named, scoped) == Conflict
    ensures RewriteComponentPath(original, named, scoped) == original
    ensures original in ConflictingPaths([original], named, scoped)
  {
  }

  /** A named head wins over the reserved names: `@` is prefixed even to `elementId...`. */
  lemma NamedBeatsReserved(original: string, named: seq<string>, scoped: seq<string>)
    requires Head(original) in named && Head(original) !in scoped
    ensures RewriteComponentPath(original, named, scoped) == "@" + original
  {
  }

  /** A head that is not named gets `this.` when scoped or reserved, and is left alone otherwise. */
  lemma NotNamedRewrite(original: string, named: seq<string>, scoped: seq<string>)
    requires Head(original) !in named
    ensures RewriteComponentPath(original, named, scoped) ==
      if Head(original) in scoped || "elementId" <= original then "this." + original else original
  {
    ComponentReservedSpec(original);
  }

  /**
   * Every rewrite adds at most one prefix, and which one is decided by the
   * precedence chain: `@` exactly for a named, unscoped head; `this.`
   * exactly for an unnamed head that is scoped or starts with `elementId`;
   * nothing otherwise.
   */
  lemma RewriteExclusive(original: string, named: seq<string>, scoped: seq<string>)
    ensures var r := RewriteComponentPath(original, named, scoped);
      && (r == "@" + original <==> Head(original) in named && Head(original) !in scoped)
      && (r == "this." + original <==>
            Head(original) !in named && (Head(original) in scoped || "elementId" <= original))
      && (r == original <==>
            (Head(original) in named && Head(original) in scoped) ||
            (Head(original) !in named && Head(original) !in scoped && !("elementId" <= original)))
  {
    ComponentReservedSpec(original);
    var r := RewriteComponentPath(original, named, scoped);
    assert |"@" + original| != |original| && |"this." + original| != |original|;
    assert ("@" + original)[0] != ("this." + original)[0];
  }

  /** A route reference gets `this.` exactly when it starts with `model` or `target`. */
  lemma RouteRewriteSpec(original: string)
    ensures RewriteRoutePath(original) ==
      if "model" <= original || "target" <= original then "this." + original else original
  {
    StartsWithAnySpec(THIS_VARIABLES_IN_MODEL, original);
    if "model" <= original {
      assert "model" in THIS_VARIABLES_IN_MODEL;
    } else if "target" <= original {
      assert "target" in THIS_VARIABLES_IN_MODEL;
    } else {
      forall v | v in THIS_VARIABLES_IN_MODEL ensures !(v <= original) {
        assert v == "model" || v == "target";
      }
    }
  }

  /** Rewriting a route template a second time changes nothing. */
  lemma RouteRewriteIdempotent(original: string)
    ensures RewriteRoutePath(RewriteRoutePath(original)) == RewriteRoutePath(original)
  {
    RouteRewriteSpec(original);
    var once := RewriteRoutePath(original);
    RouteRewriteSpec(once);
    if once != original {
      assert once[..5] == "this.";
      assert !("model" <= once) by { assert once[0] != 'm'; }
      assert !("target" <= once) by { assert once[1] != 'a'; }
    }
  }

  /** The head is the only prefix without `.` that is all of the reference or is followed by `.`. */
  lemma HeadUnique(original: string, p: string)
    requires p <= original && '.' !in p
    requires |p| == |original| || original[|p|] == '.'
    ensures Head(original) == p
  {
    HeadSpec(original);
  }

  /** The head of a reference behind a prefix without `.` is that prefix followed by the reference's head. */
  lemma HeadOfPrefixed(prefix: string, original: string)
    requires '.' !in prefix
    ensures Head(prefix + original) == prefix + Head(original)
  {
    HeadSpec(original);
    var h := Head(original);
    var s := prefix + original;
    assert s[..|prefix| + |h|] == prefix + h;
    if |h| < |original| {
      assert s[|prefix| + |h|] == original[|h|];
    }
    HeadUnique(s, prefix + h);
  }

  /**
   * Without names that begin with `@` and without `this` as a name, the
   * component rewrite is idempotent: a second pass leaves every reference
   * as the first pass made it.
   */
  lemma ComponentRewriteIdempotent(original: string, named: seq<string>, scoped: seq<string>)
    requires forall n :: n in named ==> |n| == 0 || n[0] != '@'
    requires forall n :: n in scoped ==> |n| == 0 || n[0] != '@'
    requires "this" !in named && "this" !in scoped
    ensures var once := RewriteComponentPath(original, named, scoped);
      RewriteComponentPath(once, named, scoped) == once
  {
    var once := RewriteComponentPath(original, named, scoped);
    RewriteExclusive(original, named, scoped);
    RewriteExclusive(once, named, scoped);
    if once == "@" + original {
      HeadOfPrefixed("@", original);
      assert Head(once)[0] == '@';
      assert !("elementId" <= once) by { assert once[0] != 'e'; }
    } else if once == "this." + original {
      HeadOfPrefixed("this", "." + original);
      assert once == "this" + ("." + original);
      assert Head("." + original) == "" by {
        assert IndexOf("." + original, ".") == Some(0) by {
          assert OccursAt("." + original, ".", 0);
        }
      }
      assert Head(once) == "this";
      assert !("elementId" <= once) by { assert once[0] != 'e'; }
    }
  }

  /** The reserved test reads the whole reference, so `modelX` and `elementIdFoo` match too. */
  lemma ReservedPrefixQuirk(suffix: string)
    ensures RewriteRoutePath("model" + suffix) == "this." + ("model" + suffix)
    ensures RewriteRoutePath("target" + suffix) == "this." + ("target" + suffix)
    ensures RewriteComponentPath("elementId" + suffix, [], []) == "this." + ("elementId" + suffix)
  {
    RouteRewriteSpec("model" + suffix);
    RouteRewriteSpec("target" + suffix);
    NotNamedRewrite("elementId" + suffix, [], []);
  }

  /** A reference is in the conflict report exactly when it occurs in the template as a conflicting reference. */
  lemma {:induction false} ConflictingPathsSpec(paths: seq<string>, named: seq<string>, scoped: seq<string>, x: string)
    ensures x in ConflictingPaths(paths, named, scoped) <==>
      exists i :: 0 <= i < |paths| && paths[i] == x && Classify(paths[i], named, scoped) == Conflict
    decreases |paths|
  {
    if paths != [] {
      var init := paths[..|paths| - 1];
      ConflictingPathsSpec(init, named, scoped, x);
      if exists i :: 0 <= i < |init| && init[i] == x && Classify(init[i], named, scoped) == Conflict {
        var i :| 0 <= i < |init| && init[i] == x && Classify(init[i], named, scoped) == Conflict;
        assert paths[i] == init[i];
      }
      if exists i :: 0 <= i < |paths| && paths[i] == x && Classify(paths[i], named, scoped) == Conflict {
        var i :| 0 <= i < |paths| && paths[i] == x && Classify(paths[i], named, scoped) == Conflict;
        if i < |init| { assert init[i] == paths[i]; }
      }
    }
  }

  /** The positions of the conflicting references of a template. */
  function ConflictIndices(paths: seq<string>, named: seq<string>, scoped: seq<string>): set<nat> {
    set i: nat | i < |paths| && Classify(paths[i], named, scoped) == Conflict
  }

  /** One conflict is reported for every conflicting occurrence, no more and no fewer. */
  lemma {:induction false} ConflictCount(paths: seq<string>, named: seq<string>, scoped: seq<string>)
    ensures |ConflictingPaths(paths, named, scoped)| == |ConflictIndices(paths, named, scoped)|
    decreases |paths|
  {
    if paths == [] {
      assert ConflictIndices(paths, named, scoped) == {};
    } else {
      var n := |paths| - 1;
      ConflictCount(paths[..n], named, scoped);
      ConflictIndicesSnoc(paths, named, scoped);
    }
  }

  lemma ConflictIndicesSnoc(paths: seq<string>, named: seq<string>, scoped: seq<string>)
    requires paths != []
    ensures var n := |paths| - 1;
      && n !in ConflictIndices(paths[..n], named, scoped)
      && ConflictIndices(paths, named, scoped) ==
           ConflictIndices(paths[..n], named, scoped)
             + (if Classify(paths[n], named, scoped) == Conflict then {n} else {})
  {
    var n := |paths| - 1;
    var init := paths[..n];
    assert forall i: nat :: i < n ==> init[i] == paths[i];
  }

  lemma ConflictingPathsSnoc(paths: seq<string>, i: nat, named: seq<string>, scoped: seq<string>)
    requires i < |paths|
    ensures ConflictingPaths(paths[..i + 1], named, scoped) ==
      ConflictingPaths(paths[..i], named, scoped)
        + (if Classify(paths[i], named, scoped) == Conflict then [paths[i]] else [])
  {
    assert paths[..i + 1][..i] == paths[..i];
  }

  /** The `PathExpression` visitor of a component template, assigning `original` node by node. */
  method RewriteComponentTemplate(paths: array<string>, named: seq<string>, scoped: seq<string>)
    returns (conflicts: seq<string>)
    modifies paths
    ensures paths[..] == RewriteComponentPaths(old(paths[..]), named, scoped)
    ensures conflicts == ConflictingPaths(old(paths[..]), named, scoped)
  {
    ghost var before := paths[..];
    ghost var after := RewriteComponentPaths(before, named, scoped);
    conflicts := [];
    var i := 0;
    while i < paths.Length
      invariant 0 <= i <= paths.Length
      invariant forall k :: 0 <= k < i ==> paths[k] == after[k]
      invariant forall k :: i <= k < paths.Length ==> paths[k] == before[k]
      invariant conflicts == ConflictingPaths(before[..i], named, scoped)
    {
      var original := paths[i];
      var verdict := Classify(original, named, scoped);
      assert original == before[i];
      ConflictingPathsSnoc(before, i, named, scoped);
      if verdict == Conflict {
        conflicts := conflicts + [original];
      } else if verdict == Named {
        paths[i] := ARGUMENT_SIGIL + original;
      } else if verdict == Scoped {
        paths[i] := THIS_PREFIX + original;
      }
      assert paths[i] == after[i];
      i := i + 1;
    }
    assert before[..i] == before;
  }

  /** The `PathExpression` visitor of a route template. */
  method RewriteRouteTemplate(paths: array<string>)
    modifies paths
    ensures paths[..] == RewriteRoutePaths(old(paths[..]))
  {
    var i := 0;
    while i < paths.Length
      invariant 0 <= i <= paths.Length
      invariant forall k :: 0 <= k < i ==> paths[k] == RewriteRoutePath(old(paths[k]))
      invariant forall k :: i <= k < paths.Length ==> paths[k] == old(paths[k])
    {
      if StartsWithAny(THIS_VARIABLES_IN_MODEL, paths[i]) {
        paths[i] := THIS_PREFIX + paths[i];
      }
      i := i + 1;
    }
  }
}
