/** The decision part of the form-copy script's `main`: check the two items,
    merge layers then tables, and save the destination map only if something
    was written. Fetching and saving items is the remote service's business;
    here the fetched items are inputs and the save is an outcome. */
module CopyForm {
  import opened Wrappers
  import opened Json
  import opened Descriptors
  import opened FormMerge
  import opened MergeSpec
  import opened MergeProperties

  /** The parts of a web map's JSON the script touches: its two descriptor
      lists, each possibly absent, and every other key. `others` stands for
      the keys other than `operationalLayers` and `tables`; it never holds
      those two. */
  datatype MapDocument = MapDocument(
    operationalLayers: Option<seq<Descriptor>>,
    tables: Option<seq<Descriptor>>,
    others: map<string, Json>)

  /** A portal item as returned by `gis.content.get`: its type string and its data. */
  datatype Item = Item(itemType: string, data: MapDocument)

  /** How a run ends. */
  datatype RunOutcome =
    | ItemNotFound          // ValueError: an item id did not resolve
    | NotAWebMap            // ValueError: an item is not of type "web map"
    | ExistingFormDetected  // sys.exit from replace_form: nothing is saved
    | NotModified           // no form copied: the destination is left alone
    | Saved(data: MapDocument)  // dest_item.update(data=...) with this document

  /** Python's `str.lower()` on one character, restricted to ASCII letters. */
  function LowerChar(c: char): char
  {
    if 'A' <= c <= 'Z' then (c as int + 32) as char else c
  }

  /** Python's `str.lower()` restricted to ASCII letters. */
  function LowerAscii(s: string): string
  {
    seq(|s|, i requires 0 <= i < |s| => LowerChar(s[i]))
  }

  /** The item-type test: its lower-cased type is exactly "web map". */
  predicate IsWebMap(item: Item)
  {
    LowerAscii(item.itemType) == "web map"
  }

  /** `data.get(key, [])`: an absent list reads as empty. */
  function ListOrEmpty(l: Option<seq<Descriptor>>): seq<Descriptor>
  {
    l.GetOr([])
  }

  /** Puts a merged list back. A list that was absent was read as a fresh empty
      list that is not part of the document, so the document keeps it absent. */
  function PutBack(l: Option<seq<Descriptor>>, merged: seq<Descriptor>): Option<seq<Descriptor>>
  {
    if l.Some? then Some(merged) else None
  }

  /** `main` after authentication: look the items up, merge the operational
      layers and then the tables, and save when either merge wrote something. */
  function CopyFormBetweenMaps(source: Option<Item>, dest: Option<Item>, overwrite: bool, layerName: Option<string>): RunOutcome
  {
    if source.None? || dest.None? then ItemNotFound
    else if !IsWebMap(source.value) || !IsWebMap(dest.value) then NotAWebMap
    else
      var src := source.value.data;
      var dst := dest.value.data;
      match ReplaceForm(ListOrEmpty(src.operationalLayers), ListOrEmpty(dst.operationalLayers), overwrite, layerName)
      case Failure(_) => ExistingFormDetected
      case Success((layers, layersModified)) =>
        match ReplaceForm(ListOrEmpty(src.tables), ListOrEmpty(dst.tables), overwrite, layerName)
        case Failure(_) => ExistingFormDetected
        case Success((tables, tablesModified)) =>
          if layersModified || tablesModified then
            Saved(dst.(operationalLayers := PutBack(dst.operationalLayers, layers),
                       tables := PutBack(dst.tables, tables)))
          else NotModified
  }

  /** Both items were found and both are web maps. */
  predicate ItemsUsable(source: Option<Item>, dest: Option<Item>)
  {
    source.Some? && dest.Some? && IsWebMap(source.value) && IsWebMap(dest.value)
  }

  /** Merging list `src` into list `dst` would overwrite a form without permission. */
  ghost predicate ListClobbers(src: seq<Descriptor>, dst: seq<Descriptor>, overwrite: bool, layerName: Option<string>)
  {
    exists j :: 0 <= j < |dst| && Clobbers(src, dst[j], overwrite, layerName)
  }

  /** Merging list `src` into list `dst` reaches at least one destination. */
  ghost predicate ListTargeted(src: seq<Descriptor>, dst: seq<Descriptor>, layerName: Option<string>)
  {
    exists j :: 0 <= j < |dst| && TargetedBy(src, dst[j], layerName)
  }

  /** How a run ends, in terms of the items and the merge specification: a
      lookup failure first; then a stop whenever either list would have a form
      clobbered, even if the layers were already changed in memory; otherwise a
      save exactly when some layer or table was targeted, of a document whose
      lists are merged as specified and whose other keys are untouched. */
  lemma RunDecision(source: Option<Item>, dest: Option<Item>, overwrite: bool, layerName: Option<string>)
    ensures var o := CopyFormBetweenMaps(source, dest, overwrite, layerName);
      && (o == ItemNotFound <==> source.None? || dest.None?)
      && (o == NotAWebMap <==> source.Some? && dest.Some? && !ItemsUsable(source, dest))
      && (ItemsUsable(source, dest) ==>
            var s := source.value.data;
            var d := dest.value.data;
            var sl, dl := ListOrEmpty(s.operationalLayers), ListOrEmpty(d.operationalLayers);
            var st, dt := ListOrEmpty(s.tables), ListOrEmpty(d.tables);
            && (o == ExistingFormDetected <==>
                  ListClobbers(sl, dl, overwrite, layerName) || ListClobbers(st, dt, overwrite, layerName))
            && (o.Saved? <==>
                  && !ListClobbers(sl, dl, overwrite, layerName)
                  && !ListClobbers(st, dt, overwrite, layerName)
                  && (ListTargeted(sl, dl, layerName) || ListTargeted(st, dt, layerName)))
            && (o.Saved? ==>
                  && o.data.others == d.others
                  && o.data.operationalLayers.Some? == d.operationalLayers.Some?
                  && o.data.tables.Some? == d.tables.Some?
                  && |ListOrEmpty(o.data.operationalLayers)| == |dl|
                  && |ListOrEmpty(o.data.tables)| == |dt|
                  && (forall j :: 0 <= j < |dl| ==> Expected(sl, dl[j], ListOrEmpty(o.data.operationalLayers)[j], layerName))
                  && (forall j :: 0 <= j < |dt| ==> Expected(st, dt[j], ListOrEmpty(o.data.tables)[j], layerName))))
  {
    if ItemsUsable(source, dest) {
      var s := source.value.data;
      var d := dest.value.data;
      ReplaceFormCharacterized(ListOrEmpty(s.operationalLayers), ListOrEmpty(d.operationalLayers), overwrite, layerName);
      ReplaceFormCharacterized(ListOrEmpty(s.tables), ListOrEmpty(d.tables), overwrite, layerName);
    }
  }

  /** A missing `operationalLayers` or `tables` list reads as empty: when each
      of the two lists is missing from the source map or from the destination
      map, the run saves nothing. */
  lemma AbsentListsSaveNothing(source: Option<Item>, dest: Option<Item>, overwrite: bool, layerName: Option<string>)
    requires ItemsUsable(source, dest)
    requires source.value.data.operationalLayers.None? || dest.value.data.operationalLayers.None?
    requires source.value.data.tables.None? || dest.value.data.tables.None?
    ensures CopyFormBetweenMaps(source, dest, overwrite, layerName) == NotModified
  {
    var s := source.value.data;
    var d := dest.value.data;
    NothingToWriteInto(ListOrEmpty(s.operationalLayers), overwrite, layerName);
    NothingToWriteInto(ListOrEmpty(s.tables), overwrite, layerName);
  }

  /** The type test accepts exactly the seven-character spellings of
      "web map" that differ from it only in the case of ASCII letters. */
  lemma WebMapTypeCaseInsensitive(t: string, data: MapDocument)
    ensures IsWebMap(Item(t, data)) <==>
              |t| == 7 && forall i :: 0 <= i < 7 ==> t[i] == "web map"[i] || t[i] == "WEB MAP"[i]
  {
    var lowered := LowerAscii(t);
    forall i | 0 <= i < |t| ensures lowered[i] == LowerChar(t[i]) {
    }
  }
}
