/** The partition of the configured extensions into the three hook lists
    the worker keeps (`_ext_on_task_exception`, `_ext_on_task_completion`,
    `_ext_on_task_execution`). */
module Extensions {
  import opened TaskTypes

  /** The extensions of `exts` that implement capability `c`, as the list
      comprehension `[ext for ext in exts if isinstance(ext, C)]` builds them. */
  function WithCapability(exts: seq<Extension>, c: Capability): seq<Extension>
  {
    if exts == [] then []
    else
      var last := exts[|exts| - 1];
      WithCapability(exts[..|exts| - 1], c) + (if c in last.caps then [last] else [])
  }

  /** `r` picks, at strictly increasing positions `ix` of `exts`, exactly the
      extensions that implement `c`. */
  ghost predicate SelectsInOrder(r: seq<Extension>, exts: seq<Extension>, c: Capability, ix: seq<int>)
  {
    && |ix| == |r|
    && (forall k :: 0 <= k < |ix| ==> 0 <= ix[k] < |exts| && r[k] == exts[ix[k]] && c in exts[ix[k]].caps)
    && (forall k, l :: 0 <= k < l < |ix| ==> ix[k] < ix[l])
    && (forall j :: 0 <= j < |exts| && c in exts[j].caps ==> j in ix)
  }

  /** Each hook list holds exactly the configured extensions with that
      capability, each configured occurrence once, in configuration order. */
  lemma {:induction false} WithCapabilityInOrder(exts: seq<Extension>, c: Capability)
    ensures exists ix :: SelectsInOrder(WithCapability(exts, c), exts, c, ix)
  {
    if exts == [] {
      assert WithCapability(exts, c) == [];
      assert SelectsInOrder([], exts, c, []);
    } else {
      var init, last := exts[..|exts| - 1], exts[|exts| - 1];
      assert exts == init + [last];
      WithCapabilityInOrder(init, c);
      var ix :| SelectsInOrder(WithCapability(init, c), init, c, ix);
      SelectsAppend(init, last, c, ix);
    }
  }

  /** One step of the comprehension: appending an extension extends the
      selection by its position exactly when it has the capability. */
  lemma SelectsAppend(init: seq<Extension>, last: Extension, c: Capability, ix: seq<int>)
    requires SelectsInOrder(WithCapability(init, c), init, c, ix)
    ensures SelectsInOrder(WithCapability(init + [last], c), init + [last], c,
                           if c in last.caps then ix + [|init|] else ix)
  {
    var exts := init + [last];
    assert exts[..|exts| - 1] == init;
    if c in last.caps {
      assert WithCapability(exts, c) == WithCapability(init, c) + [last];
      SelectsCapable(init, last, c, ix);
    } else {
      assert WithCapability(exts, c) == WithCapability(init, c);
      SelectsIncapable(init, last, c, ix);
    }
  }

  lemma SelectsCapable(init: seq<Extension>, last: Extension, c: Capability, ix: seq<int>)
    requires c in last.caps
    requires SelectsInOrder(WithCapability(init, c), init, c, ix)
    ensures SelectsInOrder(WithCapability(init, c) + [last], init + [last], c, ix + [|init|])
  {
    var exts, r0 := init + [last], WithCapability(init, c);
    var r, ix' := r0 + [last], ix + [|init|];
    forall k | 0 <= k < |ix'|
      ensures 0 <= ix'[k] < |exts| && r[k] == exts[ix'[k]] && c in exts[ix'[k]].caps
    {
      if k < |ix| {
        assert ix'[k] == ix[k] && r[k] == r0[k] && exts[ix[k]] == init[ix[k]];
      }
    }
    forall k, l | 0 <= k < l < |ix'|
      ensures ix'[k] < ix'[l]
    {
      if l < |ix| {
        assert ix'[k] == ix[k] && ix'[l] == ix[l];
      } else {
        assert ix'[k] == ix[k] < |init|;
      }
    }
    forall j | 0 <= j < |exts| && c in exts[j].caps
      ensures j in ix'
    {
      if j < |init| {
        assert init[j] == exts[j];
      } else {
        assert ix'[|ix|] == j;
      }
    }
  }

  lemma SelectsIncapable(init: seq<Extension>, last: Extension, c: Capability, ix: seq<int>)
    requires c !in last.caps
    requires SelectsInOrder(WithCapability(init, c), init, c, ix)
    ensures SelectsInOrder(WithCapability(init, c), init + [last], c, ix)
  {
    var exts := init + [last];
    forall k | 0 <= k < |ix|
      ensures exts[ix[k]] == init[ix[k]]
    {
    }
    forall j | 0 <= j < |exts| && c in exts[j].caps
      ensures j in ix
    {
      assert j < |init| && init[j] == exts[j];
    }
  }

  /** An extension is in a hook list exactly when it is configured and has
      that capability; an extension with several capabilities is therefore in
      every matching list. */
  lemma {:induction false} WithCapabilityMembers(exts: seq<Extension>, c: Capability, e: Extension)
    ensures e in WithCapability(exts, c) <==> e in exts && c in e.caps
  {
    WithCapabilityInOrder(exts, c);
    var ix :| SelectsInOrder(WithCapability(exts, c), exts, c, ix);
    if e in exts && c in e.caps {
      SelectedIfCapable(WithCapability(exts, c), exts, c, ix, e);
    }
    if e in WithCapability(exts, c) {
      CapableIfSelected(WithCapability(exts, c), exts, c, ix, e);
    }
  }

  lemma SelectedIfCapable(r: seq<Extension>, exts: seq<Extension>, c: Capability, ix: seq<int>, e: Extension)
    requires SelectsInOrder(r, exts, c, ix)
    requires e in exts && c in e.caps
    ensures e in r
  {
    var j :| 0 <= j < |exts| && exts[j] == e;
    assert j in ix;
    var k :| 0 <= k < |ix| && ix[k] == j;
    assert r[k] == exts[ix[k]] == e;
  }

  lemma CapableIfSelected(r: seq<Extension>, exts: seq<Extension>, c: Capability, ix: seq<int>, e: Extension)
    requires SelectsInOrder(r, exts, c, ix)
    requires e in r
    ensures e in exts && c in e.caps
  {
    var k :| 0 <= k < |r| && r[k] == e;
    assert exts[ix[k]] == e && c in exts[ix[k]].caps;
  }

  /** Configuring an extension list with no extension of capability `c`
      yields an empty hook list, and one where every extension has it yields
      the whole list. */
  lemma WithCapabilityExtremes(exts: seq<Extension>, c: Capability)
    ensures (forall i :: 0 <= i < |exts| ==> c !in exts[i].caps) ==> WithCapability(exts, c) == []
    ensures (forall i :: 0 <= i < |exts| ==> c in exts[i].caps) ==> WithCapability(exts, c) == exts
  {
    if forall i :: 0 <= i < |exts| ==> c !in exts[i].caps {
      NoneCapable(exts, c);
    }
    if forall i :: 0 <= i < |exts| ==> c in exts[i].caps {
      AllCapable(exts, c);
    }
  }

  lemma {:induction false} NoneCapable(exts: seq<Extension>, c: Capability)
    requires forall i :: 0 <= i < |exts| ==> c !in exts[i].caps
    ensures WithCapability(exts, c) == []
  {
    if exts != [] {
      var init := exts[..|exts| - 1];
      assert forall i :: 0 <= i < |init| ==> init[i] == exts[i];
      NoneCapable(init, c);
    }
  }

  lemma {:induction false} AllCapable(exts: seq<Extension>, c: Capability)
    requires forall i :: 0 <= i < |exts| ==> c in exts[i].caps
    ensures WithCapability(exts, c) == exts
  {
    if exts != [] {
      var init := exts[..|exts| - 1];
      assert forall i :: 0 <= i < |init| ==> init[i] == exts[i];
      AllCapable(init, c);
      assert init + [exts[|exts| - 1]] == exts;
    }
  }
}
