/** Paths in a backup manifest: the parser that admits them and the printer that
  * writes them.  Characters stand for bytes.
  */
module ManifestPath {
  import opened Paths
  import opened Wrappers

  const MAX_PATH_BYTES: nat := 4096
  const MAX_NESTING_DEPTH: nat := 64
  const DATABASE_FILE: string := ['d', 'a', 't', 'a', 'b', 'a', 's', 'e', '.', 's', 'q', 'l', 'i', 't', 'e', '3']
  const ARTIFACTS: string := ['a', 'r', 't', 'i', 'f', 'a', 'c', 't', 's']

  // ----- Parsing -----

  predicate Clean(value: string) {
    && value != "" && |value| <= MAX_PATH_BYTES && '\\' !in value
    && value[0] != '/' && value[|value| - 1] != '/'
  }

  /** An artifact path that may stand in a manifest, said without the iterator. */
  predicate ArtifactPath(value: string) {
    && |value| <= MAX_PATH_BYTES && '\\' !in value
    && AllPlain(Split(value)) && |Split(value)| <= MAX_NESTING_DEPTH && Split(value)[0] == ARTIFACTS
  }

  predicate Admitted(value: string, artifact: bool) {
    if artifact then ArtifactPath(value) else value == DATABASE_FILE
  }

  lemma PlainNamesAreClean(value: string)
    requires AllPlain(Split(value))
    ensures value != "" && value[0] != '/' && value[|value| - 1] != '/'
  {
    assert Split(value)[0] != "";
    if value[|value| - 1] == '/' {
      LastPieceEmpty(value);
      assert false;
    }
  }

  lemma {:induction false} LastPieceEmpty(s: string)
    requires s != "" && s[|s| - 1] == '/'
    ensures Split(s)[|Split(s)| - 1] == "" && |Split(s)| > 1
  {
    var rest := Split(s[1..]);
    if |s| > 1 {
      LastPieceEmpty(s[1..]);
    } else {
      assert rest == [""];
    }
    assert Split(s) == if s[0] == '/' then [""] + rest else [[s[0]] + rest[0]] + rest[1..];
  }

  lemma DatabaseFileLetters()
    ensures |DATABASE_FILE| == 16 && '/' !in DATABASE_FILE && '\\' !in DATABASE_FILE
  {
  }

  lemma LongPieceIsPlain(value: string)
    requires |value| > 2 && '/' !in value
    ensures Split(value) == [value] && Plain(value)
  {
    SplitPlain(value);
  }

  lemma PlainMeans(value: string)
    requires AllPlain(Split(value)) && |value| <= MAX_PATH_BYTES && '\\' !in value
    ensures Clean(value) && Components(value) == AllNormal(Split(value)) && Join(Split(value)) == value
  {
    PlainNamesAreClean(value);
    ComponentsOfPlain(value);
    JoinSplit(value);
  }

  lemma AdmittedMeans(value: string, artifact: bool)
    requires Admitted(value, artifact)
    ensures Clean(value) && Components(value) == AllNormal(Split(value)) && |Split(value)| <= MAX_NESTING_DEPTH
    ensures Join(Split(value)) == value
  {
    if !artifact {
      DatabaseFileLetters();
      LongPieceIsPlain(value);
    }
    PlainMeans(value);
  }

  /** What the last two checks decide. */
  predicate InPlace(value: string, artifact: bool, names: seq<string>) {
    && |names| <= MAX_NESTING_DEPTH && Join(names) == value
    && (if artifact then names != [] && names[0] == ARTIFACTS else value == DATABASE_FILE)
  }

  lemma AdmittedExactlyWhen(value: string, artifact: bool, names: seq<string>)
    requires Clean(value) && Components(value) == AllNormal(names)
    ensures Admitted(value, artifact) <==> InPlace(value, artifact, names)
    ensures Admitted(value, artifact) ==> names == Split(value)
  {
    if Admitted(value, artifact) {
      AdmittedMeans(value, artifact);
      NormalIsInjective(names, Split(value));
    }
    if InPlace(value, artifact, names) {
      NormalComponentsArePlain(value, names);
      SplitJoin(names);
    }
  }

  /** The checks together decide admission. */
  lemma ChecksDecide(value: string, artifact: bool)
    ensures
      var names := NormalNames(Components(value));
      && (Admitted(value, artifact) <==> Clean(value) && names.Some? && InPlace(value, artifact, names.value))
      && (Admitted(value, artifact) ==> names == Some(Split(value)))
  {
    var names := NormalNames(Components(value));
    if Admitted(value, artifact) {
      AdmittedMeans(value, artifact);
      NamesOfNormal(Split(value));
    }
    if Clean(value) && names.Some? {
      AdmittedExactlyWhen(value, artifact, names.value);
    }
  }

  /** `validate_manifest_path`. */
  method ValidateManifestPath(value: string, artifact: bool) returns (r: Option<seq<string>>)
    ensures r.Some? <==> Admitted(value, artifact)
    ensures r.Some? ==> r.value == Split(value)
  {
    ChecksDecide(value, artifact);
    if value == "" || |value| > MAX_PATH_BYTES || '\\' in value || value[0] == '/' || value[|value| - 1] == '/' {
      return None;
    }
    var normalized := CollectNormal(Components(value));
    if normalized.None? {
      return None;
    }
    var names := normalized.value;
    if |names| > MAX_NESTING_DEPTH {
      return None;
    }
    if Join(names) != value
      || (artifact && (names == [] || names[0] != ARTIFACTS)) || (!artifact && value != DATABASE_FILE)
    {
      return None;
    }
    return Some(names);
  }

  // ----- Printing -----

  /** A path of normal components that the printer prints. */
  predicate Printable(names: seq<string>) {
    |names| <= MAX_NESTING_DEPTH && Join(names) != "" && |Join(names)| <= MAX_PATH_BYTES
  }

  /** `path_to_manifest`. */
  method PathToManifest(path: seq<Component>) returns (r: Option<string>)
    ensures r.Some? <==> exists names :: path == AllNormal(names) && Printable(names)
    ensures forall names :: r.Some? && path == AllNormal(names) ==> r.value == Join(names)
  {
    var names := CollectNormal(path);
    if names.None? {
      return None;
    }
    forall other | path == AllNormal(other) ensures other == names.value {
      NormalIsInjective(other, names.value);
    }
    if |names.value| > MAX_NESTING_DEPTH {
      return None;
    }
    var value := Join(names.value);
    if value == "" || |value| > MAX_PATH_BYTES {
      return None;
    }
    return Some(value);
  }

  // ----- The two undo each other -----

  /** Printing what was parsed gives back the string. */
  lemma PrintAfterParse(value: string, artifact: bool)
    requires Admitted(value, artifact)
    ensures Components(value) == AllNormal(Split(value)) && Printable(Split(value))
    ensures Join(Split(value)) == value
  {
    AdmittedMeans(value, artifact);
  }

  predicate NoBackslash(names: seq<string>) { forall i :: 0 <= i < |names| ==> '\\' !in names[i] }

  lemma {:induction false} BackslashInJoin(names: seq<string>)
    ensures '\\' in Join(names) <==> !NoBackslash(names)
  {
    if |names| > 1 {
      var rest := names[1..];
      BackslashInJoin(rest);
      assert names == [names[0]] + rest;
      assert NoBackslash(names) <==> '\\' !in names[0] && NoBackslash(rest);
    }
  }

  /** A printed artifact path parses back to its names exactly when none of them holds a
    * backslash: that check is the parser's alone. */
  lemma ParseAfterPrintExactlyWhen(names: seq<string>)
    requires names != [] && AllPlain(names) && names[0] == ARTIFACTS && Printable(names)
    ensures Admitted(Join(names), true) <==> NoBackslash(names)
    ensures Split(Join(names)) == names
  {
    SplitJoin(names);
    BackslashInJoin(names);
  }

  /** Admitted paths with the same components are the same string; without the check this
    * fails, as for "artifacts//a". */
  lemma ParsingIsInjective(v: string, w: string, artifact: bool)
    requires Admitted(v, artifact) && Admitted(w, artifact) && Components(v) == Components(w)
    ensures v == w
  {
    AdmittedMeans(v, artifact);
    AdmittedMeans(w, artifact);
    NormalIsInjective(Split(v), Split(w));
  }

  lemma DoubledSeparatorHasTheSameComponents()
    ensures Components("a//b") == Components("a/b") && "a//b" != "a/b"
  {
    SplitPlain("b");
    assert "a/b" == "a" + "/" + "b" && "a//b" == "a" + "/" + "/b" && "/b" == "" + "/" + "b";
    SplitAtSeparator("a", "b");
    SplitAtSeparator("", "b");
    SplitAtSeparator("a", "/b");
    assert Split("a/b") == ["a", "b"] && Split("a//b") == ["a", "", "b"];
    assert ["a", "", "b"][1..] == ["", "b"] && ["", "b"][1..] == ["b"] && ["a", "b"][1..] == ["b"];
  }
}
