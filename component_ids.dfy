/**
 * Component identifiers, derived from the paths the file enumeration
 * returns for component definitions: the text after `app/components/`
 * with the first `.js` removed.
 */
module ComponentIds {
  import opened Wrappers
  import opened JsStrings

  const COMPONENTS_MARKER: string := "app/components/"
  const SCRIPT_EXTENSION: string := ".js"

  /**
   * `file.split('app/components/')[1].replace('.js', '')`. A path without
   * the marker has no second piece, and calling `replace` on `undefined`
   * throws: that is `None`.
   */
  function StripComponentId(file: string): Option<string> {
    var pieces := Split(file, COMPONENTS_MARKER);
    if |pieces| < 2 then None
    else Some(ReplaceFirst(pieces[1], SCRIPT_EXTENSION, ""))
  }

  /** `componentsJsFiles.map(...)`: every id, or `None` when one of them throws. */
  function StrippedNames(files: seq<string>): Option<seq<string>> {
    if files == [] then Some([])
    else match StripComponentId(files[0])
      case None => None
      case Some(id) =>
        match StrippedNames(files[1..])
        case None => None
        case Some(ids) => Some([id] + ids)
  }

  /** Deriving an id fails exactly when the path does not contain the marker. */
  lemma StripFailsIffNoMarker(file: string)
    ensures StripComponentId(file).None? <==> forall j: nat :: !OccursAt(file, COMPONENTS_MARKER, j)
  {
    match IndexOf(file, COMPONENTS_MARKER)
    case None =>
    case Some(i) =>
      assert |Split(file, COMPONENTS_MARKER)| >= 2;
  }

  /**
   * A path `root + "app/components/" + id + ".js"`, whose first marker
   * follows `root`, whose remainder holds no second marker and whose `id`
   * holds no `.js`, gives back `id`.
   */
  lemma StripRoundTrip(root: string, id: string)
    requires forall j: nat :: j < |root| ==> !OccursAt(root + COMPONENTS_MARKER + id + SCRIPT_EXTENSION, COMPONENTS_MARKER, j)
    requires forall j: nat :: !OccursAt(id + SCRIPT_EXTENSION, COMPONENTS_MARKER, j)
    requires forall j: nat :: j < |id| ==> !OccursAt(id + SCRIPT_EXTENSION, SCRIPT_EXTENSION, j)
    ensures StripComponentId(root + COMPONENTS_MARKER + id + SCRIPT_EXTENSION) == Some(id)
  {
    var rest := id + SCRIPT_EXTENSION;
    var file := root + COMPONENTS_MARKER + rest;
    assert file == root + COMPONENTS_MARKER + id + SCRIPT_EXTENSION;
    assert file[|root|..|root| + |COMPONENTS_MARKER|] == COMPONENTS_MARKER;
    assert OccursAt(file, COMPONENTS_MARKER, |root|);
    assert IndexOf(file, COMPONENTS_MARKER) == Some(|root|);
    assert file[|root| + |COMPONENTS_MARKER|..] == rest;
    assert Split(rest, COMPONENTS_MARKER) == [rest];
    assert Split(file, COMPONENTS_MARKER)[1] == rest;
    assert id + SCRIPT_EXTENSION + "" == rest;
    ReplaceFirstAt(id, SCRIPT_EXTENSION, "", "");
    assert id + "" + "" == id;
  }

  /** The ids are computed file by file and in order; one path without the marker makes the whole map throw. */
  lemma {:induction false} StrippedNamesSpec(files: seq<string>)
    ensures StrippedNames(files).Some? <==> forall k :: 0 <= k < |files| ==> StripComponentId(files[k]).Some?
    ensures StrippedNames(files).Some? ==>
      |StrippedNames(files).value| == |files| &&
      forall k :: 0 <= k < |files| ==> StrippedNames(files).value[k] == StripComponentId(files[k]).value
  {
    if files != [] {
      StrippedNamesSpec(files[1..]);
      assert forall k :: 1 <= k < |files| ==> files[k] == files[1..][k - 1];
    }
  }
}
