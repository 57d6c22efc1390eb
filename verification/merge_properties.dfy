/** Consequences of the characterization of `replace_form` that its callers rely on. */
module MergeProperties {
  import opened Wrappers
  import opened Json
  import opened Descriptors
  import opened FormMerge
  import opened MergeSpec

  /** Sources without a `formInfo` key contribute nothing: with none present the
      result is `False` and the destination list is returned untouched. */
  lemma {:induction false} NoFormsNoChange(src: seq<Descriptor>, dst: seq<Descriptor>, overwrite: bool, layerName: Option<string>)
    requires forall i :: 0 <= i < |src| ==> src[i].formInfo.None?
    ensures ReplaceForm(src, dst, overwrite, layerName) == Success((dst, false))
    decreases |src|
  {
    if |src| > 0 {
      assert forall i :: 0 <= i < |src| - 1 ==> src[1..][i] == src[i + 1];
      NoFormsNoChange(src[1..], dst, overwrite, layerName);
    }
  }

  /** With `--overwrite` the scan never stops. */
  lemma OverwriteNeverStops(src: seq<Descriptor>, dst: seq<Descriptor>, layerName: Option<string>)
    ensures ReplaceForm(src, dst, true, layerName).Success?
  {
    ReplaceFormCharacterized(src, dst, true, layerName);
  }

  /** A form-bearing source that reaches a destination still holding a truthy
      form of its own stops the run when `--overwrite` is not given. */
  lemma ExistingFormStops(src: seq<Descriptor>, dst: seq<Descriptor>, layerName: Option<string>, i: nat, j: nat)
    requires i < |src| && j < |dst|
    requires Targets(src[i], dst[j], layerName) && HasForm(dst[j])
    ensures ReplaceForm(src, dst, false, layerName) == Failure(ExistingForm)
  {
    ReplaceFormCharacterized(src, dst, false, layerName);
    assert TargetedBy(src, dst[j], layerName);
    var r := ReplaceForm(src, dst, false, layerName);
    assert r.Failure? && r.error.ExistingForm?;
  }

  /** A destination whose `url` no source shares, or whose `title` fails a set
      filter, comes out exactly as it went in. */
  lemma UnmatchedUnchanged(src: seq<Descriptor>, dst: seq<Descriptor>, overwrite: bool, layerName: Option<string>, j: nat)
    requires j < |dst|
    requires (forall i :: 0 <= i < |src| ==> Get(src[i].url) != Get(dst[j].url))
             || (layerName.Some? && Get(dst[j].title) != JString(layerName.value))
    requires ReplaceForm(src, dst, overwrite, layerName).Success?
    ensures ReplaceForm(src, dst, overwrite, layerName).value.0[j] == dst[j]
  {
    ReplaceFormCharacterized(src, dst, overwrite, layerName);
    assert !TargetedBy(src, dst[j], layerName);
  }

  /** A targeted destination ends with the form of the last source that
      targets it, and nothing else about it changes. */
  lemma LastSourceWins(src: seq<Descriptor>, dst: seq<Descriptor>, overwrite: bool, layerName: Option<string>, i: nat, j: nat)
    requires i < |src| && j < |dst|
    requires Targets(src[i], dst[j], layerName)
    requires forall k :: i < k < |src| ==> !Targets(src[k], dst[j], layerName)
    requires ReplaceForm(src, dst, overwrite, layerName).Success?
    ensures var d := ReplaceForm(src, dst, overwrite, layerName).value.0[j];
      d.formInfo == src[i].formInfo && SameExceptForm(d, dst[j])
    ensures ReplaceForm(src, dst, overwrite, layerName).value.1
  {
    ReplaceFormCharacterized(src, dst, overwrite, layerName);
    assert IsLastTarget(src, i, dst[j], layerName);
    assert TargetedBy(src, dst[j], layerName);
  }

  /** Without `--overwrite`, a run that completes wrote only into destinations
      that held no form, and every source form reaching a destination before
      another source reached it was falsy: a truthy form is written into a
      destination at most once. */
  lemma WrittenAtMostOnce(src: seq<Descriptor>, dst: seq<Descriptor>, layerName: Option<string>, j: nat)
    requires j < |dst|
    requires ReplaceForm(src, dst, false, layerName).Success?
    ensures TargetedBy(src, dst[j], layerName) ==> !HasForm(dst[j])
    ensures forall k, i :: 0 <= k < i < |src| && Targets(src[k], dst[j], layerName) && Targets(src[i], dst[j], layerName)
              ==> !Truthy(src[k].formInfo.value)
  {
    ReplaceFormCharacterized(src, dst, false, layerName);
    assert !Clobbers(src, dst[j], false, layerName);
  }

  /** The result is `True` as soon as one assignment happened, even when the
      copied form equals the one already there: the destination then comes out
      identical, yet the run counts as a modification. */
  lemma ModifiedEvenIfSame(src: seq<Descriptor>, dst: seq<Descriptor>, overwrite: bool, layerName: Option<string>, i: nat, j: nat)
    requires i < |src| && j < |dst|
    requires IsLastTarget(src, i, dst[j], layerName)
    requires src[i].formInfo == dst[j].formInfo
    requires ReplaceForm(src, dst, overwrite, layerName).Success?
    ensures ReplaceForm(src, dst, overwrite, layerName).value.0[j] == dst[j]
    ensures ReplaceForm(src, dst, overwrite, layerName).value.1
  {
    LastSourceWins(src, dst, overwrite, layerName, i, j);
  }

  /** One form-bearing source against one destination: the single inner-loop
      step decides everything, and the result is `True` exactly on a match. */
  lemma OneSourceOneDestination(s: Descriptor, d: Descriptor, overwrite: bool, layerName: Option<string>)
    requires s.formInfo.Some?
    ensures !Matches(s, d, layerName) ==> ReplaceForm([s], [d], overwrite, layerName) == Success(([d], false))
    ensures Matches(s, d, layerName) && (overwrite || !HasForm(d)) ==>
              ReplaceForm([s], [d], overwrite, layerName) == Success(([d.(formInfo := s.formInfo)], true))
    ensures Matches(s, d, layerName) && !overwrite && HasForm(d) ==>
              ReplaceForm([s], [d], overwrite, layerName) == Failure(ExistingForm)
  {
    assert [s][1..] == [] && [d][1..] == [];
    var step := CopyToMatches(s, [d], overwrite, layerName);
    assert step.Success? ==> step.value.0 == [step.value.0[0]];
  }

  /** Nothing can be written into an empty destination list. */
  lemma {:induction false} NothingToWriteInto(src: seq<Descriptor>, overwrite: bool, layerName: Option<string>)
    ensures ReplaceForm(src, [], overwrite, layerName) == Success(([], false))
    decreases |src|
  {
    if |src| > 0 {
      NothingToWriteInto(src[1..], overwrite, layerName);
      if src[0].formInfo.Some? {
        assert CopyToMatches(src[0], [], overwrite, layerName) == Success(([], false));
      }
    }
  }
}
