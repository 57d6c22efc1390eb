/** `replace_form`: copy each form-bearing source descriptor's `formInfo` into
    every matching destination descriptor, stopping the whole run when an
    existing form would be overwritten without permission. */
module FormMerge {
  import opened Wrappers
  import opened Descriptors

  /** The one way `replace_form` stops: `sys.exit` on an existing form. */
  datatype Conflict = ExistingForm {

    /** The text `sys.exit` prints when it stops the run. */
    function Message(): string
    {
      "Existing form is detected. Pass --overwrite to the script to overwrite the form"
    }
  }

  /** Either the updated destination list with the `modified` flag, or a conflict. */
  type Merge = Result<(seq<Descriptor>, bool), Conflict>

  /** The innermost branch for one form-bearing source and one destination:
      leave it, copy the form into it, or stop. */
  function Apply(s: Descriptor, d: Descriptor, overwrite: bool, layerName: Option<string>): Result<Descriptor, Conflict>
    requires s.formInfo.Some?
  {
    if !Matches(s, d, layerName) then Success(d)
    else if overwrite || !HasForm(d) then Success(d.(formInfo := s.formInfo))
    else Failure(ExistingForm)
  }

  /** The inner loop over the destination list for one form-bearing source. */
  function CopyToMatches(s: Descriptor, dst: seq<Descriptor>, overwrite: bool, layerName: Option<string>): (r: Merge)
    requires s.formInfo.Some?
    ensures r.Failure? <==> exists j :: 0 <= j < |dst| && Apply(s, dst[j], overwrite, layerName).Failure?
    ensures r.Success? ==> |r.value.0| == |dst|
    ensures r.Success? ==> forall j :: 0 <= j < |dst| ==> Apply(s, dst[j], overwrite, layerName) == Success(r.value.0[j])
    ensures r.Success? ==> (r.value.1 <==> exists j :: 0 <= j < |dst| && Matches(s, dst[j], layerName))
    decreases |dst|
  {
    if |dst| == 0 then Success(([], false))
    else
      match Apply(s, dst[0], overwrite, layerName)
      case Failure(e) => Failure(e)
      case Success(d) =>
        match CopyToMatches(s, dst[1..], overwrite, layerName)
        case Failure(e) =>
          assert forall j :: 0 <= j < |dst| - 1 ==> dst[1..][j] == dst[j + 1];
          Failure(e)
        case Success((rest, m)) =>
          assert forall j :: 0 < j < |dst| ==> dst[j] == dst[1..][j - 1];
          Success(([d] + rest, Matches(s, dst[0], layerName) || m))
  }

  /** `replace_form(source_objects, dest_objects, overwrite)` with the global
      `args.layer_name` made a parameter. Sources are taken in order; one
      without a `formInfo` key is skipped. */
  function ReplaceForm(src: seq<Descriptor>, dst: seq<Descriptor>, overwrite: bool, layerName: Option<string>): (r: Merge)
    ensures r.Success? ==> |r.value.0| == |dst|
    ensures r.Success? ==> forall j :: 0 <= j < |dst| ==> SameExceptForm(r.value.0[j], dst[j])
    decreases |src|
  {
    if |src| == 0 then Success((dst, false))
    else if src[0].formInfo.None? then ReplaceForm(src[1..], dst, overwrite, layerName)
    else
      match CopyToMatches(src[0], dst, overwrite, layerName)
      case Failure(e) => Failure(e)
      case Success((dst', m)) =>
        assert forall j :: 0 <= j < |dst| ==> SameExceptForm(dst'[j], dst[j]) by {
          forall j | 0 <= j < |dst| ensures SameExceptForm(dst'[j], dst[j]) {
            assert Apply(src[0], dst[j], overwrite, layerName) == Success(dst'[j]);
          }
        }
        Or(ReplaceForm(src[1..], dst', overwrite, layerName), m)
  }

  /** Folds an earlier `modified` flag into a later merge's result. */
  function Or(r: Merge, modified: bool): Merge
  {
    match r
    case Failure(e) => Failure(e)
    case Success((d, m)) => Success((d, modified || m))
  }

  /** The inner loop (lines 66-75) over the destination list for one
      form-bearing source, assigning in place. */
  method CopyToMatchesLoop(s: Descriptor, dst: seq<Descriptor>, overwrite: bool, layerName: Option<string>)
    returns (r: Merge)
    requires s.formInfo.Some?
    ensures r == CopyToMatches(s, dst, overwrite, layerName)
  {
    var cur := dst;
    var m := false;
    var j := 0;
    while j < |cur|
      invariant 0 <= j <= |cur| == |dst|
      invariant cur[j..] == dst[j..]
      invariant forall k :: 0 <= k < j ==> Apply(s, dst[k], overwrite, layerName) == Success(cur[k])
      invariant m <==> exists k :: 0 <= k < j && Matches(s, dst[k], layerName)
    {
      var d := cur[j];
      assert d == dst[j];
      if Matches(s, d, layerName) {
        if overwrite || !HasForm(d) {
          cur := cur[j := d.(formInfo := s.formInfo)];
          m := true;
        } else {
          assert Apply(s, dst[j], overwrite, layerName).Failure?;
          var expected := CopyToMatches(s, dst, overwrite, layerName);
          assert expected.Failure? && expected.error.ExistingForm?;
          return Failure(ExistingForm);
        }
      }
      j := j + 1;
    }
    var expected := CopyToMatches(s, dst, overwrite, layerName);
    assert expected.Success?;
    assert expected.value.0 == cur;
    r := Success((cur, m));
  }

  /** The script's outer loop (lines 63-64) with the shared `modified` flag
      raised whenever the inner loop assigned. */
  method ReplaceFormLoop(src: seq<Descriptor>, dst: seq<Descriptor>, overwrite: bool, layerName: Option<string>)
    returns (r: Merge)
    ensures r == ReplaceForm(src, dst, overwrite, layerName)
  {
    var cur := dst;
    var modified := false;
    var i := 0;
    while i < |src|
      invariant 0 <= i <= |src|
      invariant ReplaceForm(src, dst, overwrite, layerName) == Or(ReplaceForm(src[i..], cur, overwrite, layerName), modified)
    {
      var s := src[i];
      assert src[i..][0] == s && src[i..][1..] == src[i + 1..];
      if s.formInfo.Some? {
        var step := CopyToMatchesLoop(s, cur, overwrite, layerName);
        if step.Failure? {
          var rest := ReplaceForm(src[i..], cur, overwrite, layerName);
          assert rest.Failure? && rest.error.ExistingForm?;
          return Failure(ExistingForm);
        }
        OrAssociates(ReplaceForm(src[i + 1..], step.value.0, overwrite, layerName), step.value.1, modified);
        cur := step.value.0;
        modified := modified || step.value.1;
      }
      i := i + 1;
    }
    r := Success((cur, modified));
  }

  /** Raising the flag in two steps is raising it once. */
  lemma OrAssociates(r: Merge, m: bool, modified: bool)
    ensures Or(Or(r, m), modified) == Or(r, modified || m)
  {
  }
}
