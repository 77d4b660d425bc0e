/**
 * The bookkeeping of the codemod: the dictionary of named arguments per
 * component (filled from invocations found in templates), the dictionary of
 * scoped properties per component (filled from definition files), and the
 * per-file rewrite steps that read them.
 */
module Shifter {
  import opened Wrappers
  import opened JsStrings
  import opened ComponentIds
  import opened References

  /** Component id to an ordered list of names. */
  type Dictionary = map<string, seq<string>>

  /** A mustache or block statement: its callee path and the keys of its hash pairs, in order. */
  datatype Invocation = Invocation(callee: string, hashKeys: seq<string>)

  /** What transforming one component template comes to. */
  datatype TransformOutcome =
    | Crashed                                   // the component has no dictionary entry: `undefined.length` throws
    | TemplateMissing                           // no template file: a diagnostic, no write
    | Transformed(conflicts: seq<string>)       // rewritten and written back; the conflicting references in visit order

  /** One push: ignored for an unknown callee, and when the list already holds the callee's own name. */
  function Push(dict: Dictionary, componentName: string, argumentName: string): Dictionary {
    if componentName !in dict then dict
    else if componentName in dict[componentName] then dict
    else dict[componentName := dict[componentName] + [argumentName]]
  }

  /** The pushes for every hash key of one invocation, in order. */
  function PushAll(dict: Dictionary, componentName: string, argumentNames: seq<string>): Dictionary
    decreases |argumentNames|
  {
    if argumentNames == [] then dict
    else PushAll(Push(dict, componentName, argumentNames[0]), componentName, argumentNames[1..])
  }

  /** The pushes for every invocation of one template, in visit order. */
  function CollectTemplate(dict: Dictionary, template: seq<Invocation>): Dictionary
    decreases |template|
  {
    if template == [] then dict
    else CollectTemplate(PushAll(dict, template[0].callee, template[0].hashKeys), template[1..])
  }

  /** The pushes for every template, one template after the other. */
  function CollectTemplates(dict: Dictionary, templates: seq<seq<Invocation>>): Dictionary
    decreases |templates|
  {
    if templates == [] then dict
    else CollectTemplates(CollectTemplate(dict, templates[0]), templates[1..])
  }

  /** The seeded dictionary: an empty list for every component id. */
  function Seeded(names: seq<string>): Dictionary {
    map n | n in names :: []
  }

  /** Scoped-property collection for one definition file: the names are appended, the entry made on the first one. */
  function AddScoped(props: Dictionary, componentName: string, propertyNames: seq<string>): Dictionary {
    if propertyNames == [] then props
    else
      var existing := if componentName in props then props[componentName] else [];
      props[componentName := existing + propertyNames]
  }

  /** Scoped-property collection for every component whose definition file exists. */
  function ScopeAll(props: Dictionary, names: seq<string>, definitions: map<string, seq<string>>): Dictionary
    decreases |names|
  {
    if names == [] then props
    else
      var next := if names[0] in definitions then AddScoped(props, names[0], definitions[names[0]]) else props;
      ScopeAll(next, names[1..], definitions)
  }

  /** A push for a callee that is not a key leaves the whole dictionary unchanged. */
  lemma PushUnknownUnchanged(dict: Dictionary, componentName: string, argumentName: string)
    requires componentName !in dict
    ensures Push(dict, componentName, argumentName) == dict
  {
  }

  /**
   * A push for a known callee whose list lacks the callee's own name appends
   * the argument at the end; every other key and every earlier element stays.
   */
  lemma PushAppends(dict: Dictionary, componentName: string, argumentName: string)
    requires componentName in dict && componentName !in dict[componentName]
    ensures var r := Push(dict, componentName, argumentName);
      && r.Keys == dict.Keys
      && r[componentName] == dict[componentName] + [argumentName]
      && forall k :: k in dict && k != componentName ==> r[k] == dict[k]
  {
  }

  /** Once a list holds its component's own name, no push for that component appends anything. */
  lemma PushBlockedBySelfName(dict: Dictionary, componentName: string, argumentName: string)
    requires componentName in dict && componentName in dict[componentName]
    ensures Push(dict, componentName, argumentName) == dict
  {
  }

  /** Invocations never add keys, and every list only grows at its end. */
  lemma {:induction false} PushAllGrows(dict: Dictionary, componentName: string, argumentNames: seq<string>)
    ensures PushAll(dict, componentName, argumentNames).Keys == dict.Keys
    ensures forall k :: k in dict ==> dict[k] <= PushAll(dict, componentName, argumentNames)[k]
    ensures forall k :: k in dict && k != componentName ==> PushAll(dict, componentName, argumentNames)[k] == dict[k]
    decreases |argumentNames|
  {
    if argumentNames != [] {
      var next := Push(dict, componentName, argumentNames[0]);
      PushAllGrows(next, componentName, argumentNames[1..]);
    }
  }

  /** The hash keys of an invocation of a known component are appended in order, as long as none is the component's name. */
  lemma {:induction false} PushAllAppendsAll(dict: Dictionary, componentName: string, argumentNames: seq<string>)
    requires componentName in dict && componentName !in dict[componentName] && componentName !in argumentNames
    ensures componentName in PushAll(dict, componentName, argumentNames)
    ensures PushAll(dict, componentName, argumentNames)[componentName] == dict[componentName] + argumentNames
    decreases |argumentNames|
  {
    PushAllGrows(dict, componentName, argumentNames);
    if argumentNames != [] {
      var next := Push(dict, componentName, argumentNames[0]);
      assert next[componentName] == dict[componentName] + [argumentNames[0]];
      PushAllAppendsAll(next, componentName, argumentNames[1..]);
      assert dict[componentName] + [argumentNames[0]] + argumentNames[1..] == dict[componentName] + argumentNames;
    }
  }

  /**
   * The guard tests the component's name, not the argument's: after a hash
   * key equal to the component's own name, the later keys are dropped.
   */
  lemma {:induction false} SelfNamedArgumentBlocksRest(dict: Dictionary, componentName: string, argumentNames: seq<string>)
    requires componentName in dict && componentName in dict[componentName]
    ensures PushAll(dict, componentName, argumentNames) == dict
    decreases |argumentNames|
  {
    if argumentNames != [] {
      PushAllBlockedStep(dict, componentName, argumentNames);
      SelfNamedArgumentBlocksRest(dict, componentName, argumentNames[1..]);
    }
  }

  lemma PushAllBlockedStep(dict: Dictionary, componentName: string, argumentNames: seq<string>)
    requires argumentNames != [] && componentName in dict && componentName in dict[componentName]
    ensures PushAll(dict, componentName, argumentNames) == PushAll(dict, componentName, argumentNames[1..])
  {
  }

  /** `{{title title=x subtitle=y}}` records `title` but loses `subtitle`. */
  lemma SelfNamedArgumentExample()
    ensures PushAll(map["title" := []], "title", ["title", "subtitle"]) == map["title" := ["title"]]
  {
    var d := map["title" := []];
    var d1 := Push(d, "title", "title");
    assert "title" !in d["title"];
    assert d1 == d["title" := [] + ["title"]];
    assert [] + ["title"] == ["title"];
    assert d1 == map["title" := ["title"]];
    SelfNamedArgumentBlocksRest(d1, "title", ["subtitle"]);
  }

  /** A template whose every callee is unknown leaves the dictionary unchanged. */
  lemma {:induction false} UnknownCalleesIgnored(dict: Dictionary, template: seq<Invocation>)
    requires forall k :: 0 <= k < |template| ==> template[k].callee !in dict
    ensures CollectTemplate(dict, template) == dict
    decreases |template|
  {
    if template != [] {
      UnknownCalleePushAll(dict, template[0].callee, template[0].hashKeys);
      assert forall k :: 0 <= k < |template[1..]| ==> template[1..][k] == template[k + 1];
      UnknownCalleesIgnored(dict, template[1..]);
    }
  }

  lemma {:induction false} UnknownCalleePushAll(dict: Dictionary, componentName: string, argumentNames: seq<string>)
    requires componentName !in dict
    ensures PushAll(dict, componentName, argumentNames) == dict
    decreases |argumentNames|
  {
    if argumentNames != [] {
      UnknownCalleePushAll(dict, componentName, argumentNames[1..]);
    }
  }

  /** Scanning a template never removes a name: each list only grows at its end. */
  lemma {:induction false} CollectTemplateGrows(dict: Dictionary, template: seq<Invocation>, c: string)
    requires c in dict
    ensures c in CollectTemplate(dict, template) && dict[c] <= CollectTemplate(dict, template)[c]
    decreases |template|
  {
    if template != [] {
      var next := PushAll(dict, template[0].callee, template[0].hashKeys);
      PushAllGrows(dict, template[0].callee, template[0].hashKeys);
      CollectTemplateGrows(next, template[1..], c);
    }
  }

  /** Scanning every template never removes a name: each list only grows at its end. */
  lemma {:induction false} CollectTemplatesGrows(dict: Dictionary, templates: seq<seq<Invocation>>, c: string)
    requires c in dict
    ensures c in CollectTemplates(dict, templates) && dict[c] <= CollectTemplates(dict, templates)[c]
    decreases |templates|
  {
    if templates != [] {
      var next := CollectTemplate(dict, templates[0]);
      CollectTemplateGrows(dict, templates[0], c);
      CollectTemplatesGrows(next, templates[1..], c);
    }
  }

  /**
   * The hash keys of an invocation are recorded up to and including the
   * first one equal to the component's own name; the keys after it are lost.
   */
  lemma SelfNameCutsOff(dict: Dictionary, c: string, pre: seq<string>, post: seq<string>)
    requires c in dict && c !in dict[c] && c !in pre
    ensures c in PushAll(dict, c, pre + [c] + post)
    ensures PushAll(dict, c, pre + [c] + post)[c] == dict[c] + pre + [c]
  {
    var mid := PushAll(dict, c, pre);
    PushAllAppendsAll(dict, c, pre);
    PushAllConcat(dict, c, pre, [c] + post);
    assert pre + [c] + post == pre + ([c] + post);
    var after := Push(mid, c, c);
    assert after[c] == dict[c] + pre + [c];
    assert ([c] + post)[1..] == post;
    assert PushAll(mid, c, [c] + post) == PushAll(after, c, post);
    SelfNamedArgumentBlocksRest(after, c, post);
  }

  /** The pushes for two lists of keys are the pushes for the first, then for the second. */
  lemma {:induction false} PushAllConcat(dict: Dictionary, c: string, xs: seq<string>, ys: seq<string>)
    ensures PushAll(dict, c, xs + ys) == PushAll(PushAll(dict, c, xs), c, ys)
    decreases |xs|
  {
    if xs == [] {
      assert xs + ys == ys;
    } else {
      assert xs + ys != [] && (xs + ys)[0] == xs[0];
      assert (xs + ys)[1..] == xs[1..] + ys;
      PushAllConcat(Push(dict, c, xs[0]), c, xs[1..], ys);
    }
  }

  /** Collecting any number of templates never adds a key. */
  lemma {:induction false} CollectTemplatesKeepsKeys(dict: Dictionary, templates: seq<seq<Invocation>>)
    ensures CollectTemplates(dict, templates).Keys == dict.Keys
    decreases |templates|
  {
    if templates != [] {
      CollectTemplateKeepsKeys(dict, templates[0]);
      CollectTemplatesKeepsKeys(CollectTemplate(dict, templates[0]), templates[1..]);
    }
  }

  lemma {:induction false} CollectTemplateKeepsKeys(dict: Dictionary, template: seq<Invocation>)
    ensures CollectTemplate(dict, template).Keys == dict.Keys
    decreases |template|
  {
    if template != [] {
      PushAllGrows(dict, template[0].callee, template[0].hashKeys);
      CollectTemplateKeepsKeys(PushAll(dict, template[0].callee, template[0].hashKeys), template[1..]);
    }
  }

  /** An element of a list is still there after the list is extended. */
  lemma PrefixKeepsElements(a: seq<string>, b: seq<string>, x: string)
    requires a <= b && x in a
    ensures x in b
  {
    var i :| 0 <= i < |a| && a[i] == x;
    assert b[i] == x;
  }

  /** A component whose list lacks its own name keeps lacking it while no hash key for it is that name. */
  lemma {:induction false} PushAllSelfAbsent(dict: Dictionary, callee: string, argumentNames: seq<string>, c: string)
    requires c in dict && c !in dict[c]
    requires callee == c ==> c !in argumentNames
    ensures c in PushAll(dict, callee, argumentNames) && c !in PushAll(dict, callee, argumentNames)[c]
    decreases |argumentNames|
  {
    if argumentNames != [] {
      var next := Push(dict, callee, argumentNames[0]);
      assert c in next && c !in next[c];
      PushAllSelfAbsent(next, callee, argumentNames[1..], c);
    }
  }

  /**
   * Every hash key passed to a known component in a template is recorded for
   * it, and nothing recorded before is lost, provided no invocation of that
   * component passes a key equal to its own name.
   */
  lemma {:induction false} CollectTemplateRecords(dict: Dictionary, template: seq<Invocation>, c: string)
    requires c in dict && c !in dict[c]
    requires forall k :: 0 <= k < |template| && template[k].callee == c ==> c !in template[k].hashKeys
    ensures c in CollectTemplate(dict, template) && c !in CollectTemplate(dict, template)[c]
    ensures forall x :: x in dict[c] ==> x in CollectTemplate(dict, template)[c]
    ensures forall k, key :: 0 <= k < |template| && template[k].callee == c && key in template[k].hashKeys ==>
      key in CollectTemplate(dict, template)[c]
    decreases |template|
  {
    if template != [] {
      var inv := template[0];
      var next := PushAll(dict, inv.callee, inv.hashKeys);
      PushAllSelfAbsent(dict, inv.callee, inv.hashKeys, c);
      PushAllGrows(dict, inv.callee, inv.hashKeys);
      if inv.callee == c {
        PushAllAppendsAll(dict, c, inv.hashKeys);
      }
      assert forall k :: 1 <= k < |template| ==> template[1..][k - 1] == template[k];
      CollectTemplateRecords(next, template[1..], c);
      var result := CollectTemplate(dict, template);
      assert result == CollectTemplate(next, template[1..]);
      forall x | x in dict[c] ensures x in result[c] {
        PrefixKeepsElements(dict[c], next[c], x);
      }
      forall k, key | 0 <= k < |template| && template[k].callee == c && key in template[k].hashKeys
        ensures key in result[c]
      {
        if k == 0 {
          assert key in next[c];
        } else {
          assert template[1..][k - 1] == template[k];
        }
      }
    }
  }

  /**
   * After the scan of every template, each hash key passed anywhere to a
   * seeded component is in its list of named arguments, provided no
   * invocation of that component passes a key equal to its own name.
   */
  lemma {:induction false} CollectTemplatesRecords(dict: Dictionary, templates: seq<seq<Invocation>>, c: string)
    requires c in dict && c !in dict[c]
    requires forall t, k :: 0 <= t < |templates| && 0 <= k < |templates[t]| && templates[t][k].callee == c ==>
      c !in templates[t][k].hashKeys
    ensures c in CollectTemplates(dict, templates) && c !in CollectTemplates(dict, templates)[c]
    ensures forall x :: x in dict[c] ==> x in CollectTemplates(dict, templates)[c]
    ensures forall t, k, key ::
      (0 <= t < |templates| && 0 <= k < |templates[t]| && templates[t][k].callee == c && key in templates[t][k].hashKeys)
      ==> key in CollectTemplates(dict, templates)[c]
    decreases |templates|
  {
    if templates != [] {
      var next := CollectTemplate(dict, templates[0]);
      CollectTemplateRecords(dict, templates[0], c);
      assert forall t :: 1 <= t < |templates| ==> templates[1..][t - 1] == templates[t];
      CollectTemplatesRecords(next, templates[1..], c);
      var result := CollectTemplates(dict, templates);
      assert result == CollectTemplates(next, templates[1..]);
      forall t, k, key | 0 <= t < |templates| && 0 <= k < |templates[t]| && templates[t][k].callee == c &&
        key in templates[t][k].hashKeys
        ensures key in result[c]
      {
        if t == 0 {
          assert key in next[c];
        } else {
          assert templates[1..][t - 1] == templates[t];
        }
      }
    }
  }

  /**
   * A name passed as a hash key to a component somewhere in the templates,
   * and not among its scoped properties, turns every reference in that
   * component's template with that head into an `@` argument, provided no
   * invocation of the component passes its own name as a key (otherwise the
   * guard may block the name from being recorded).
   */
  lemma PassedArgumentGetsSigil(names: seq<string>, templates: seq<seq<Invocation>>, c: string,
                                t: nat, k: nat, original: string, scoped: seq<string>)
    requires c in names
    requires forall t, k :: 0 <= t < |templates| && 0 <= k < |templates[t]| && templates[t][k].callee == c ==>
      c !in templates[t][k].hashKeys
    requires t < |templates| && k < |templates[t]| && templates[t][k].callee == c
    requires Head(original) in templates[t][k].hashKeys && Head(original) !in scoped
    ensures c in CollectTemplates(Seeded(names), templates)
    ensures RewriteComponentPath(original, CollectTemplates(Seeded(names), templates)[c], scoped) == "@" + original
  {
    var seeded := Seeded(names);
    assert c in seeded && seeded[c] == [];
    CollectTemplatesRecords(seeded, templates, c);
    NamedBeatsReserved(original, CollectTemplates(seeded, templates)[c], scoped);
  }

  /** Every name in a list after an invocation was there before, or is one of the invocation's hash keys for that component. */
  lemma {:induction false} PushAllSound(dict: Dictionary, callee: string, argumentNames: seq<string>, c: string, x: string)
    requires c in dict && c in PushAll(dict, callee, argumentNames) && x in PushAll(dict, callee, argumentNames)[c]
    ensures x in dict[c] || (callee == c && x in argumentNames)
    decreases |argumentNames|
  {
    if argumentNames != [] {
      var next := Push(dict, callee, argumentNames[0]);
      PushAllSound(next, callee, argumentNames[1..], c, x);
      if x in next[c] && x !in dict[c] {
        assert callee == c && x == argumentNames[0];
      }
    }
  }

  /** Every name in a list after a template was there before, or was passed to that component in the template. */
  lemma {:induction false} CollectTemplateSound(dict: Dictionary, template: seq<Invocation>, c: string, x: string)
    requires c in dict && c in CollectTemplate(dict, template) && x in CollectTemplate(dict, template)[c]
    ensures x in dict[c] || exists k :: 0 <= k < |template| && template[k].callee == c && x in template[k].hashKeys
    decreases |template|
  {
    if template != [] {
      var next := PushAll(dict, template[0].callee, template[0].hashKeys);
      PushAllGrows(dict, template[0].callee, template[0].hashKeys);
      CollectTemplateSound(next, template[1..], c, x);
      if x in next[c] {
        PushAllSound(dict, template[0].callee, template[0].hashKeys, c, x);
      } else {
        var k :| 0 <= k < |template[1..]| && template[1..][k].callee == c && x in template[1..][k].hashKeys;
        assert template[k + 1] == template[1..][k];
      }
    }
  }

  /**
   * Every name in a component's list after the scan of every template was
   * there before, or was passed to that component at some invocation.
   */
  lemma {:induction false} CollectTemplatesSound(dict: Dictionary, templates: seq<seq<Invocation>>, c: string, x: string)
    requires c in dict && c in CollectTemplates(dict, templates) && x in CollectTemplates(dict, templates)[c]
    ensures x in dict[c] || exists t, k ::
      (0 <= t < |templates| && 0 <= k < |templates[t]| && templates[t][k].callee == c && x in templates[t][k].hashKeys)
    decreases |templates|
  {
    if templates != [] {
      var next := CollectTemplate(dict, templates[0]);
      CollectTemplateKeepsKeys(dict, templates[0]);
      CollectTemplatesSound(next, templates[1..], c, x);
      if x in next[c] {
        CollectTemplateSound(dict, templates[0], c, x);
        if x !in dict[c] {
          var k :| 0 <= k < |templates[0]| && templates[0][k].callee == c && x in templates[0][k].hashKeys;
          assert 0 < |templates| && 0 <= k < |templates[0]|;
        }
      } else {
        var t, k :| 0 <= t < |templates[1..]| && 0 <= k < |templates[1..][t]| &&
          templates[1..][t][k].callee == c && x in templates[1..][t][k].hashKeys;
        assert templates[t + 1] == templates[1..][t];
      }
    }
  }

  /**
   * A head that gets `@` in a component's template after the collection
   * phase was passed as a hash key to that component at some invocation.
   */
  lemma SigilOnlyForPassedArguments(names: seq<string>, templates: seq<seq<Invocation>>, c: string,
                                    original: string, scoped: seq<string>)
    requires c in names
    requires c in CollectTemplates(Seeded(names), templates)
    requires RewriteComponentPath(original, CollectTemplates(Seeded(names), templates)[c], scoped) == "@" + original
    ensures exists t, k ::
      (0 <= t < |templates| && 0 <= k < |templates[t]| && templates[t][k].callee == c &&
       Head(original) in templates[t][k].hashKeys)
  {
    var seeded := Seeded(names);
    assert c in seeded && seeded[c] == [];
    RewriteExclusive(original, CollectTemplates(seeded, templates)[c], scoped);
    CollectTemplatesSound(seeded, templates, c, Head(original));
  }

  /** The scan order matters: a self-named key passed first blocks what a later template passes. */
  lemma ScanOrderMatters()
    ensures CollectTemplates(Seeded(["title"]), [[Invocation("title", ["subtitle"])], [Invocation("title", ["title"])]])
      == map["title" := ["subtitle", "title"]]
    ensures CollectTemplates(Seeded(["title"]), [[Invocation("title", ["title"])], [Invocation("title", ["subtitle"])]])
      == map["title" := ["title"]]
  {
    var seeded := Seeded(["title"]);
    assert seeded == map["title" := []];
    assert "title" != "subtitle" by { assert "title"[0] != "subtitle"[0]; }
    var a := map["title" := ["subtitle"]];
    var b := map["title" := ["title"]];
    var ab := map["title" := ["subtitle", "title"]];
    assert Push(seeded, "title", "subtitle") == a by {
      assert "title" !in seeded["title"];
      assert [] + ["subtitle"] == ["subtitle"];
    }
    assert Push(seeded, "title", "title") == b by {
      assert "title" !in seeded["title"];
      assert [] + ["title"] == ["title"];
    }
    assert Push(a, "title", "title") == ab by {
      assert "title" !in a["title"];
      assert ["subtitle"] + ["title"] == ["subtitle", "title"];
    }
    assert Push(b, "title", "subtitle") == b;
    assert PushAll(seeded, "title", ["subtitle"]) == a;
    assert PushAll(seeded, "title", ["title"]) == b;
    assert PushAll(a, "title", ["title"]) == ab;
    assert PushAll(b, "title", ["subtitle"]) == b;
    assert CollectTemplate(seeded, [Invocation("title", ["subtitle"])]) == a;
    assert CollectTemplate(a, [Invocation("title", ["title"])]) == ab;
    assert CollectTemplate(seeded, [Invocation("title", ["title"])]) == b;
    assert CollectTemplate(b, [Invocation("title", ["subtitle"])]) == b;
  }

  /** After seeding, the keys are exactly the component ids, each with an empty list. */
  lemma SeededSpec(names: seq<string>)
    ensures Seeded(names).Keys == set n | n in names
    ensures forall n :: n in Seeded(names) ==> Seeded(names)[n] == []
  {
  }

  /** A definition file with no properties creates no entry; otherwise its names follow the existing ones. */
  lemma AddScopedSpec(props: Dictionary, componentName: string, propertyNames: seq<string>)
    ensures propertyNames == [] ==> AddScoped(props, componentName, propertyNames) == props
    ensures propertyNames != [] ==>
      var r := AddScoped(props, componentName, propertyNames);
      && r.Keys == props.Keys + {componentName}
      && r[componentName] == (if componentName in props then props[componentName] else []) + propertyNames
      && forall k :: k in props && k != componentName ==> r[k] == props[k]
  {
  }

  /** A component without a definition file, or with no properties in it, gets no scoped entry. */
  lemma {:induction false} ScopeAllNoEntry(props: Dictionary, names: seq<string>, definitions: map<string, seq<string>>, c: string)
    requires c !in props
    requires c !in definitions || definitions[c] == []
    ensures c !in ScopeAll(props, names, definitions)
    decreases |names|
  {
    if names != [] {
      var next := if names[0] in definitions then AddScoped(props, names[0], definitions[names[0]]) else props;
      assert c !in next;
      ScopeAllNoEntry(next, names[1..], definitions, c);
    }
  }

  /** A scoped property, once recorded, is never lost by later definition files. */
  lemma {:induction false} ScopeAllKeeps(props: Dictionary, names: seq<string>, definitions: map<string, seq<string>>, c: string, x: string)
    requires c in props && x in props[c]
    ensures c in ScopeAll(props, names, definitions) && x in ScopeAll(props, names, definitions)[c]
    decreases |names|
  {
    if names != [] {
      var next := if names[0] in definitions then AddScoped(props, names[0], definitions[names[0]]) else props;
      assert c in next && x in next[c];
      ScopeAllKeeps(next, names[1..], definitions, c, x);
    }
  }

  /** Every property of an existing definition file of a component id is recorded for it. */
  lemma {:induction false} ScopeAllRecords(props: Dictionary, names: seq<string>, definitions: map<string, seq<string>>, c: string, x: string)
    requires c in names && c in definitions && x in definitions[c]
    ensures c in ScopeAll(props, names, definitions) && x in ScopeAll(props, names, definitions)[c]
    decreases |names|
  {
    var next := if names[0] in definitions then AddScoped(props, names[0], definitions[names[0]]) else props;
    if names[0] == c {
      assert c in next && x in next[c];
      ScopeAllKeeps(next, names[1..], definitions, c, x);
    } else {
      ScopeAllRecords(next, names[1..], definitions, c, x);
    }
  }

  /**
   * A property declared in a component's definition file, and not a named
   * argument of it, turns every reference in that component's template with
   * that head into a `this.` reference.
   */
  lemma ScopedPropertyGetsThis(props: Dictionary, names: seq<string>, definitions: map<string, seq<string>>,
                               c: string, original: string, named: seq<string>)
    requires c in names && c in definitions && Head(original) in definitions[c]
    requires Head(original) !in named
    ensures c in ScopeAll(props, names, definitions)
    ensures RewriteComponentPath(original, named, ScopeAll(props, names, definitions)[c]) == "this." + original
  {
    ScopeAllRecords(props, names, definitions, c, Head(original));
    NotNamedRewrite(original, named, ScopeAll(props, names, definitions)[c]);
  }

  /**
   * A name that is both passed to a component and declared in its definition
   * file leaves every reference with that head unchanged and reported,
   * provided no invocation of the component passes its own name as a key.
   */
  lemma ArgumentAndPropertyConflict(names: seq<string>, templates: seq<seq<Invocation>>,
                                    props: Dictionary, definitions: map<string, seq<string>>,
                                    c: string, t: nat, k: nat, original: string)
    requires c in names && c in definitions && Head(original) in definitions[c]
    requires forall t, k :: 0 <= t < |templates| && 0 <= k < |templates[t]| && templates[t][k].callee == c ==>
      c !in templates[t][k].hashKeys
    requires t < |templates| && k < |templates[t]| && templates[t][k].callee == c
    requires Head(original) in templates[t][k].hashKeys
    ensures c in CollectTemplates(Seeded(names), templates) && c in ScopeAll(props, names, definitions)
    ensures var named := CollectTemplates(Seeded(names), templates)[c];
      var scoped := ScopeAll(props, names, definitions)[c];
      Classify(original, named, scoped) == Conflict && RewriteComponentPath(original, named, scoped) == original
  {
    var seeded := Seeded(names);
    assert c in seeded && seeded[c] == [];
    CollectTemplatesRecords(seeded, templates, c);
    ScopeAllRecords(props, names, definitions, c, Head(original));
    ConflictLeftUnchanged(original, CollectTemplates(seeded, templates)[c], ScopeAll(props, names, definitions)[c]);
  }

  /**
   * Every scoped property recorded for a component was recorded before, or
   * comes from the existing definition file of one of the component ids.
   */
  lemma {:induction false} ScopeAllSound(props: Dictionary, names: seq<string>, definitions: map<string, seq<string>>, c: string, x: string)
    requires c in ScopeAll(props, names, definitions) && x in ScopeAll(props, names, definitions)[c]
    ensures (c in props && x in props[c]) || (c in names && c in definitions && x in definitions[c])
    decreases |names|
  {
    if names != [] {
      var next := if names[0] in definitions then AddScoped(props, names[0], definitions[names[0]]) else props;
      ScopeAllSound(next, names[1..], definitions, c, x);
      if c in next && x in next[c] && !(c in props && x in props[c]) {
        assert names[0] == c && c in definitions && x in definitions[c];
      }
    }
  }

  /**
   * A reference that gets `this.` in a component's template starts with
   * `elementId`, or its head is a scoped property recorded before or read
   * from the component's existing definition file.
   */
  lemma ThisOnlyForScopedOrReserved(props: Dictionary, names: seq<string>, definitions: map<string, seq<string>>,
                                    c: string, original: string, named: seq<string>)
    requires var scopedDict := ScopeAll(props, names, definitions);
      RewriteComponentPath(original, named, if c in scopedDict then scopedDict[c] else []) == "this." + original
    ensures "elementId" <= original
      || (c in props && Head(original) in props[c])
      || (c in names && c in definitions && Head(original) in definitions[c])
  {
    var scopedDict := ScopeAll(props, names, definitions);
    var scoped := if c in scopedDict then scopedDict[c] else [];
    RewriteExclusive(original, named, scoped);
    if !("elementId" <= original) {
      assert Head(original) in scoped;
      ScopeAllSound(props, names, definitions, c, Head(original));
    }
  }

  /** The skip test `namedArguments.length || scopredArguments`, where an array is always truthy. */
  function TransformGuard(named: seq<string>, scoped: seq<string>): (r: bool)
    ensures r
  {
    |named| != 0 || ArrayIsTruthy(scoped)
  }

  /**
   * JavaScript truthiness of an array value: every array, empty or not, is
   * truthy. This is taken as a definition here, so the `ensures r` of
   * `TransformGuard` records the quirk rather than proving anything about it.
   */
  function ArrayIsTruthy(a: seq<string>): bool {
    true
  }

  class CodeShifter {
    /** Named arguments per component id. */
    var components: Dictionary
    /** Scoped properties per component id. */
    var properties: Dictionary

    constructor ()
      ensures components == map[] && properties == map[]
    {
      components := map[];
      properties := map[];
    }

    method PushToComponentsDictionary(componentName: string, argumentName: string)
      modifies this
      ensures components == Push(old(components), componentName, argumentName)
      ensures properties == old(properties)
    {
      if componentName !in components {
        // a helper or something else
        return;
      }
      var foundArguments := components[componentName];
      if componentName !in foundArguments {
        components := components[componentName := foundArguments + [argumentName]];
      }
    }

    method FindArgumentsInStatement(node: Invocation)
      modifies this
      ensures components == PushAll(old(components), node.callee, node.hashKeys)
      ensures properties == old(properties)
    {
      var i := 0;
      while i < |node.hashKeys|
        invariant 0 <= i <= |node.hashKeys|
        invariant PushAll(components, node.callee, node.hashKeys[i..]) == PushAll(old(components), node.callee, node.hashKeys)
        invariant properties == old(properties)
      {
        PushToComponentsDictionary(node.callee, node.hashKeys[i]);
        assert node.hashKeys[i..][1..] == node.hashKeys[i + 1..];
        i := i + 1;
      }
    }

    /** The mustache and block statements of one template, in visit order. */
    method FindArgumentsInFile(template: seq<Invocation>)
      modifies this
      ensures components == CollectTemplate(old(components), template)
      ensures properties == old(properties)
    {
      var i := 0;
      while i < |template|
        invariant 0 <= i <= |template|
        invariant CollectTemplate(components, template[i..]) == CollectTemplate(old(components), template)
        invariant properties == old(properties)
      {
        FindArgumentsInStatement(template[i]);
        assert template[i..][1..] == template[i + 1..];
        i := i + 1;
      }
    }

    /**
     * The property visitor over one definition file; `definition` is `None`
     * when the file does not exist, otherwise its property key names in
     * visit order.
     */
    method FindScopedArguments(componentName: string, definition: Option<seq<string>>)
      modifies this
      ensures properties == if definition.None? then old(properties)
                            else AddScoped(old(properties), componentName, definition.value)
      ensures components == old(components)
    {
      if definition.None? {
        // the file is missing: a diagnostic only
        return;
      }
      var propertyNames := definition.value;
      var i := 0;
      while i < |propertyNames|
        invariant 0 <= i <= |propertyNames|
        invariant properties == AddScoped(old(properties), componentName, propertyNames[..i])
        invariant components == old(components)
      {
        ghost var existing := if componentName in old(properties) then old(properties)[componentName] else [];
        if componentName !in properties {
          properties := properties[componentName := []];
        }
        assert properties[componentName] == existing + propertyNames[..i];
        assert propertyNames[..i + 1] == propertyNames[..i] + [propertyNames[i]];
        properties := properties[componentName := properties[componentName] + [propertyNames[i]]];
        assert properties[componentName] == existing + propertyNames[..i + 1];
        i := i + 1;
      }
      assert propertyNames[..i] == propertyNames;
    }

    /** Derive the component ids and seed the named-argument dictionary with them. */
    method SeedComponents(files: seq<string>) returns (names: Option<seq<string>>)
      modifies this
      ensures names == StrippedNames(files)
      ensures names.Some? ==> components == Seeded(names.value)
      ensures names.None? ==> components == old(components)
      ensures properties == old(properties)
    {
      names := StrippedNames(files);
      if names.None? {
        // `split(...)[1]` was undefined and `replace` threw
        return;
      }
      var ids := names.value;
      var acc: Dictionary := map[];
      var i := 0;
      while i < |ids|
        invariant 0 <= i <= |ids|
        invariant acc == Seeded(ids[..i])
      {
        assert ids[..i + 1] == ids[..i] + [ids[i]];
        acc := acc[ids[i] := []];
        i := i + 1;
      }
      assert ids[..i] == ids;
      components := acc;
    }

    /**
     * The collection phase: seed, then scan every template for invocations,
     * then read every definition file (`definitions` holds the files that
     * exist, by component id).
     */
    method Collect(files: seq<string>, templates: seq<seq<Invocation>>, definitions: map<string, seq<string>>)
      returns (names: Option<seq<string>>)
      modifies this
      ensures names == StrippedNames(files)
      ensures names.None? ==> components == old(components) && properties == old(properties)
      ensures names.Some? ==> components == CollectTemplates(Seeded(names.value), templates)
      ensures names.Some? ==> components.Keys == set n | n in names.value
      ensures names.Some? ==> properties == ScopeAll(old(properties), names.value, definitions)
    {
      names := SeedComponents(files);
      if names.None? {
        return;
      }
      var ids := names.value;
      var i := 0;
      while i < |templates|
        invariant 0 <= i <= |templates|
        invariant CollectTemplates(components, templates[i..]) == CollectTemplates(Seeded(ids), templates)
        invariant properties == old(properties)
      {
        FindArgumentsInFile(templates[i]);
        assert templates[i..][1..] == templates[i + 1..];
        i := i + 1;
      }
      var j := 0;
      while j < |ids|
        invariant 0 <= j <= |ids|
        invariant ScopeAll(properties, ids[j..], definitions) == ScopeAll(old(properties), ids, definitions)
        invariant components == CollectTemplates(Seeded(ids), templates)
      {
        var definition := if ids[j] in definitions then Some(definitions[ids[j]]) else None;
        FindScopedArguments(ids[j], definition);
        assert ids[j..][1..] == ids[j + 1..];
        j := j + 1;
      }
      CollectTemplatesKeepsKeys(Seeded(ids), templates);
      SeededSpec(ids);
    }

    /**
     * Rewrite the template of one component with its named arguments and
     * scoped properties; `template` is `null` when the file does not exist,
     * otherwise its path expressions in visit order, rewritten in place.
     */
    method ReplaceArguments(componentName: string, template: array?<string>) returns (outcome: TransformOutcome)
      modifies template
      ensures componentName !in components ==> outcome == Crashed
      ensures componentName in components && template == null ==> outcome == TemplateMissing
      ensures componentName in components && template != null ==>
        var named := components[componentName];
        var scoped := if componentName in properties then properties[componentName] else [];
        && template[..] == RewriteComponentPaths(old(template[..]), named, scoped)
        && outcome == Transformed(ConflictingPaths(old(template[..]), named, scoped))
      ensures !outcome.Transformed? && template != null ==> template[..] == old(template[..])
    {
      if componentName !in components {
        return Crashed;
      }
      var namedArguments := components[componentName];
      var scopedArguments := if componentName in properties then properties[componentName] else [];
      if !TransformGuard(namedArguments, scopedArguments) {
        assert false;
      }
      if template == null {
        return TemplateMissing;
      }
      var conflicts := RewriteComponentTemplate(template, namedArguments, scopedArguments);
      return Transformed(conflicts);
    }

    /** Rewrite one route template in place; `route` is `null` when the file does not exist. */
    method ReplaceModelInRoute(route: array?<string>)
      modifies route
      ensures route != null ==> route[..] == RewriteRoutePaths(old(route[..]))
    {
      if route != null {
        RewriteRouteTemplate(route);
      }
    }
  }
}
