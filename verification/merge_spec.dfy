/** What `replace_form` computes, stated without its loops: one destination at
    a time, in terms of the sources that target it. */
module MergeSpec {
  import opened Wrappers
  import opened Json
  import opened Descriptors
  import opened FormMerge

  /** Some source in `src` targets `d`. */
  ghost predicate TargetedBy(src: seq<Descriptor>, d: Descriptor, layerName: Option<string>)
  {
    exists i :: 0 <= i < |src| && Targets(src[i], d, layerName)
  }

  /** `src[i]` targets `d` and no later source does. */
  ghost predicate IsLastTarget(src: seq<Descriptor>, i: int, d: Descriptor, layerName: Option<string>)
  {
    && 0 <= i < |src|
    && Targets(src[i], d, layerName)
    && forall k :: i < k < |src| ==> !Targets(src[k], d, layerName)
  }

  /** Processing `src` would overwrite an existing form of `d` without
      permission: `d` is targeted while it still holds its own truthy form, or
      a source with a truthy form reached `d` and a later source targets it too. */
  ghost predicate Clobbers(src: seq<Descriptor>, d: Descriptor, overwrite: bool, layerName: Option<string>)
  {
    && !overwrite
    && (|| (TargetedBy(src, d, layerName) && HasForm(d))
        || exists k, i :: 0 <= k < i < |src| && Targets(src[k], d, layerName) && Targets(src[i], d, layerName)
                          && Truthy(src[k].formInfo.value))
  }

  /** `r` is what `d` must become: the form of the last source targeting it,
      every other key as before; `d` itself when no source targets it. */
  ghost predicate Expected(src: seq<Descriptor>, d: Descriptor, r: Descriptor, layerName: Option<string>)
  {
    && (!TargetedBy(src, d, layerName) ==> r == d)
    && forall i :: IsLastTarget(src, i, d, layerName) ==> r == d.(formInfo := src[i].formInfo)
  }

  /** The scan as seen by a single destination: each form-bearing source in
      turn either leaves it, writes into it or stops the run. */
  function Track(src: seq<Descriptor>, d: Descriptor, overwrite: bool, layerName: Option<string>): Result<Descriptor, Conflict>
    decreases |src|
  {
    if |src| == 0 then Success(d)
    else if src[0].formInfo.None? then Track(src[1..], d, overwrite, layerName)
    else
      match Apply(src[0], d, overwrite, layerName)
      case Failure(e) => Failure(e)
      case Success(d') => Track(src[1..], d', overwrite, layerName)
  }

  /** Targeting looks only at `url` and `title`, which a form copy leaves alone. */
  lemma TargetsIgnoresForm(src: seq<Descriptor>, d: Descriptor, d': Descriptor, layerName: Option<string>)
    requires d'.url == d.url && d'.title == d.title
    ensures forall i :: 0 <= i < |src| ==> (Targets(src[i], d', layerName) <==> Targets(src[i], d, layerName))
    ensures TargetedBy(src, d', layerName) <==> TargetedBy(src, d, layerName)
  {
  }

  /** Dropping a first source that does not target `d` shifts every index by one. */
  lemma SkipNonTarget(src: seq<Descriptor>, d: Descriptor, overwrite: bool, layerName: Option<string>)
    requires |src| > 0 && !Targets(src[0], d, layerName)
    ensures TargetedBy(src, d, layerName) <==> TargetedBy(src[1..], d, layerName)
    ensures Clobbers(src, d, overwrite, layerName) <==> Clobbers(src[1..], d, overwrite, layerName)
    ensures forall i :: IsLastTarget(src, i, d, layerName) <==> 0 < i && IsLastTarget(src[1..], i - 1, d, layerName)
  {
    var rest := src[1..];
    assert forall i :: 0 < i < |src| ==> src[i] == rest[i - 1];
    if TargetedBy(src, d, layerName) {
      var i :| 0 <= i < |src| && Targets(src[i], d, layerName);
      assert Targets(rest[i - 1], d, layerName);
    }
    if Clobbers(src, d, overwrite, layerName) && !(TargetedBy(src, d, layerName) && HasForm(d)) {
      var k, i :| 0 <= k < i < |src| && Targets(src[k], d, layerName) && Targets(src[i], d, layerName)
                  && Truthy(src[k].formInfo.value);
      assert Targets(rest[k - 1], d, layerName) && Targets(rest[i - 1], d, layerName);
    }
    if Clobbers(rest, d, overwrite, layerName) && !(TargetedBy(rest, d, layerName) && HasForm(d)) {
      var k, i :| 0 <= k < i < |rest| && Targets(rest[k], d, layerName) && Targets(rest[i], d, layerName)
                  && Truthy(rest[k].formInfo.value);
      assert Targets(src[k + 1], d, layerName) && Targets(src[i + 1], d, layerName);
    }
  }

  /** A first source that targets `d` and writes into it: what remains to be
      checked of the scan is the rest of the sources against the updated `d`. */
  lemma AfterWrite(src: seq<Descriptor>, d: Descriptor, overwrite: bool, layerName: Option<string>)
    requires |src| > 0 && Targets(src[0], d, layerName) && (overwrite || !HasForm(d))
    ensures var d' := d.(formInfo := src[0].formInfo);
      && (Clobbers(src, d, overwrite, layerName) <==> Clobbers(src[1..], d', overwrite, layerName))
      && (TargetedBy(src[1..], d', layerName) ==>
            forall i :: IsLastTarget(src, i, d, layerName) <==> 0 < i && IsLastTarget(src[1..], i - 1, d', layerName))
      && (!TargetedBy(src[1..], d', layerName) ==> forall i :: IsLastTarget(src, i, d, layerName) <==> i == 0)
  {
    var rest := src[1..];
    var d' := d.(formInfo := src[0].formInfo);
    assert forall i :: 0 < i < |src| ==> src[i] == rest[i - 1];
    TargetsIgnoresForm(rest, d, d', layerName);
    if !overwrite {
      if Clobbers(src, d, overwrite, layerName) {
        var k, i :| 0 <= k < i < |src| && Targets(src[k], d, layerName) && Targets(src[i], d, layerName)
                    && Truthy(src[k].formInfo.value);
        if k == 0 {
          assert Targets(rest[i - 1], d', layerName);
          assert TargetedBy(rest, d', layerName) && HasForm(d');
        } else {
          assert Targets(rest[k - 1], d', layerName) && Targets(rest[i - 1], d', layerName);
        }
      }
      if Clobbers(rest, d', overwrite, layerName) {
        if TargetedBy(rest, d', layerName) && HasForm(d') {
          var i :| 0 <= i < |rest| && Targets(rest[i], d', layerName);
          assert Targets(src[i + 1], d, layerName);
        } else {
          var k, i :| 0 <= k < i < |rest| && Targets(rest[k], d', layerName) && Targets(rest[i], d', layerName)
                      && Truthy(rest[k].formInfo.value);
          assert Targets(src[k + 1], d, layerName) && Targets(src[i + 1], d, layerName);
        }
      }
    }
    if !TargetedBy(rest, d', layerName) {
      forall i | 0 < i < |src| ensures !IsLastTarget(src, i, d, layerName) {
        assert !Targets(rest[i - 1], d', layerName);
      }
    }
  }

  /** One destination's fate: the scan stops exactly when it would clobber a
      form, and otherwise leaves the destination as `Expected` says. */
  lemma {:induction false} TrackCharacterized(src: seq<Descriptor>, d: Descriptor, overwrite: bool, layerName: Option<string>)
    ensures Track(src, d, overwrite, layerName).Failure? <==> Clobbers(src, d, overwrite, layerName)
    ensures Track(src, d, overwrite, layerName).Success? ==> Expected(src, d, Track(src, d, overwrite, layerName).value, layerName)
    decreases |src|
  {
    if |src| == 0 {
      assert !TargetedBy(src, d, layerName);
    } else if !Targets(src[0], d, layerName) {
      SkipNonTarget(src, d, overwrite, layerName);
      TrackCharacterized(src[1..], d, overwrite, layerName);
    } else if !overwrite && HasForm(d) {
      assert TargetedBy(src, d, layerName);
    } else {
      var d' := d.(formInfo := src[0].formInfo);
      AfterWrite(src, d, overwrite, layerName);
      TrackCharacterized(src[1..], d', overwrite, layerName);
      TargetsIgnoresForm(src[1..], d, d', layerName);
      assert TargetedBy(src, d, layerName);
    }
  }

  /** Destinations do not influence one another: the whole scan stops exactly
      when the scan of some single destination would, and otherwise leaves each
      destination as its own scan does. */
  lemma {:induction false} PerDestination(src: seq<Descriptor>, dst: seq<Descriptor>, overwrite: bool, layerName: Option<string>)
    ensures var r := ReplaceForm(src, dst, overwrite, layerName);
      && (r.Failure? <==> exists j :: 0 <= j < |dst| && Track(src, dst[j], overwrite, layerName).Failure?)
      && (r.Success? ==> forall j :: 0 <= j < |dst| ==> Track(src, dst[j], overwrite, layerName) == Success(r.value.0[j]))
      && (r.Success? ==> (r.value.1 <==> exists j :: 0 <= j < |dst| && TargetedBy(src, dst[j], layerName)))
    decreases |src|
  {
    if |src| == 0 {
    } else {
      var rest := src[1..];
      assert forall i :: 0 < i < |src| ==> src[i] == rest[i - 1];
      forall j | 0 <= j < |dst|
        ensures TargetedBy(src, dst[j], layerName) <==> Targets(src[0], dst[j], layerName) || TargetedBy(rest, dst[j], layerName)
      {
        if TargetedBy(src, dst[j], layerName) && !Targets(src[0], dst[j], layerName) {
          var i :| 0 <= i < |src| && Targets(src[i], dst[j], layerName);
          assert Targets(rest[i - 1], dst[j], layerName);
        }
        if TargetedBy(rest, dst[j], layerName) {
          var i :| 0 <= i < |rest| && Targets(rest[i], dst[j], layerName);
          assert Targets(src[i + 1], dst[j], layerName);
        }
      }
      if src[0].formInfo.None? {
        PerDestination(rest, dst, overwrite, layerName);
      } else {
        var step := CopyToMatches(src[0], dst, overwrite, layerName);
        if step.Success? {
          var dst' := step.value.0;
          PerDestination(rest, dst', overwrite, layerName);
          forall j | 0 <= j < |dst|
            ensures Track(src, dst[j], overwrite, layerName) == Track(rest, dst'[j], overwrite, layerName)
            ensures TargetedBy(rest, dst'[j], layerName) <==> TargetedBy(rest, dst[j], layerName)
          {
            assert Apply(src[0], dst[j], overwrite, layerName) == Success(dst'[j]);
            TargetsIgnoresForm(rest, dst[j], dst'[j], layerName);
          }
        } else {
          var j :| 0 <= j < |dst| && Apply(src[0], dst[j], overwrite, layerName).Failure?;
          assert Track(src, dst[j], overwrite, layerName).Failure?;
        }
      }
    }
  }

  /** `replace_form` in full: it stops exactly when some destination would have
      an existing form overwritten without `--overwrite`; otherwise every
      destination keeps its place and all its keys but `formInfo`, which becomes
      the form of the last source targeting it, and the result is `True`
      exactly when some source targeted some destination. */
  lemma ReplaceFormCharacterized(src: seq<Descriptor>, dst: seq<Descriptor>, overwrite: bool, layerName: Option<string>)
    ensures var r := ReplaceForm(src, dst, overwrite, layerName);
      && (r.Failure? <==> exists j :: 0 <= j < |dst| && Clobbers(src, dst[j], overwrite, layerName))
      && (r.Success? ==> |r.value.0| == |dst|)
      && (r.Success? ==> forall j :: 0 <= j < |dst| ==> Expected(src, dst[j], r.value.0[j], layerName))
      && (r.Success? ==> (r.value.1 <==> exists j :: 0 <= j < |dst| && TargetedBy(src, dst[j], layerName)))
  {
    PerDestination(src, dst, overwrite, layerName);
    forall j | 0 <= j < |dst|
      ensures Track(src, dst[j], overwrite, layerName).Failure? <==> Clobbers(src, dst[j], overwrite, layerName)
      ensures Track(src, dst[j], overwrite, layerName).Success? ==>
                Expected(src, dst[j], Track(src, dst[j], overwrite, layerName).value, layerName)
    {
      TrackCharacterized(src, dst[j], overwrite, layerName);
    }
  }
}
