/** Concrete end-to-end runs:
    a form copied into a formless table, blocked by an existing form, forced with
    `--overwrite`, and a destination no source layer matches. Two merge-level
    examples follow: descriptors without a `url` match and an empty form counts
    as none, and a title filter skips an untitled destination. */
module Scenarios {
  import opened Wrappers
  import opened Json
  import opened Descriptors
  import opened FormMerge
  import opened MergeProperties
  import opened CopyForm

  /** `{"f": n}`, a stand-in form. */
  function Form(n: int): Json
  {
    JObject(map["f" := JNumber(n)])
  }

  /** A web map holding only tables. */
  function TablesMap(tables: seq<Descriptor>): Option<Item>
  {
    Some(Item("Web Map", MapDocument(None, Some(tables), map[])))
  }

  const SourceTable: Descriptor := Descriptor(Some(JString("X")), None, Some(Form(1)), map[])
  const DestTable: Descriptor := Descriptor(Some(JString("X")), Some(JString("T")), None, map[])

  /** A formless destination table gains the source's form and the map is saved. */
  lemma FormCopiedIntoEmptyTable()
    ensures CopyFormBetweenMaps(TablesMap([SourceTable]), TablesMap([DestTable]), false, None)
            == Saved(MapDocument(None, Some([DestTable.(formInfo := Some(Form(1)))]), map[]))
  {
    WebMapTypeCaseInsensitive("Web Map", MapDocument(None, Some([]), map[]));
    OneSourceOneDestination(SourceTable, DestTable, false, None);
  }

  /** The same table already holding a form stops the run without `--overwrite`. */
  lemma ExistingFormBlocksCopy()
    ensures CopyFormBetweenMaps(TablesMap([SourceTable]), TablesMap([DestTable.(formInfo := Some(Form(0)))]), false, None)
            == ExistingFormDetected
  {
    WebMapTypeCaseInsensitive("Web Map", MapDocument(None, Some([]), map[]));
    assert Form(0).members.Keys == {"f"};
    OneSourceOneDestination(SourceTable, DestTable.(formInfo := Some(Form(0))), false, None);
  }

  /** With `--overwrite` the existing form is replaced and the map is saved. */
  lemma OverwriteReplacesForm()
    ensures CopyFormBetweenMaps(TablesMap([SourceTable]), TablesMap([DestTable.(formInfo := Some(Form(0)))]), true, None)
            == Saved(MapDocument(None, Some([DestTable.(formInfo := Some(Form(1)))]), map[]))
  {
    WebMapTypeCaseInsensitive("Web Map", MapDocument(None, Some([]), map[]));
    OneSourceOneDestination(SourceTable, DestTable.(formInfo := Some(Form(0))), true, None);
  }

  /** No source table shares the destination's url: nothing is saved. */
  lemma NoMatchingUrlNothingSaved()
    ensures CopyFormBetweenMaps(TablesMap([SourceTable.(url := Some(JString("Y")))]), TablesMap([DestTable]), false, None)
            == NotModified
  {
    WebMapTypeCaseInsensitive("Web Map", MapDocument(None, Some([]), map[]));
    OneSourceOneDestination(SourceTable.(url := Some(JString("Y"))), DestTable, false, None);
  }

  /** A source and a destination that both lack `url` match, and an empty form
      on the destination counts as no form. */
  lemma MissingUrlsMatchAndEmptyFormIsNoForm()
    ensures var s := Descriptor(None, None, Some(Form(1)), map[]);
            var d := Descriptor(None, Some(JString("T")), Some(JObject(map[])), map[]);
            ReplaceForm([s], [d], false, None) == Success(([d.(formInfo := Some(Form(1)))], true))
  {
    var s := Descriptor(None, None, Some(Form(1)), map[]);
    var d := Descriptor(None, Some(JString("T")), Some(JObject(map[])), map[]);
    OneSourceOneDestination(s, d, false, None);
  }

  /** A set title filter never matches a destination without a `title`. */
  lemma FilterSkipsUntitled()
    ensures var d := DestTable.(title := None);
            ReplaceForm([SourceTable], [d], false, Some("T")) == Success(([d], false))
  {
    var d := DestTable.(title := None);
    OneSourceOneDestination(SourceTable, d, false, Some("T"));
  }
}
