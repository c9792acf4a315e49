/** Generated screen codes over whole runs. */
module ScreenRuns {
  import opened Common
  import opened RbacModel
  import opened RbacSafety
  import opened ScreenCodes
  import opened Slug

  predicate WithoutCode(req: RbacRequest) {
    req.CreateScreen? && (req.code.None? || req.code.value == "")
  }

  lemma HasCodeIff(screens: seq<Screen>, code: Code)
    ensures HasCode(screens, code) <==> code in CodesOf(screens)
  {
    if i :| 0 <= i < |screens| && screens[i].code == code {
      assert CodesOf(screens)[i] == code;
    }
  }

  /** Creating a screen fails exactly when a code was given that a screen already has. */
  lemma CreateScreenFailsIff(st: RbacState, req: RbacRequest)
    requires req.CreateScreen?
    ensures CreateScreenStep(st, req).reply == Failed(ScreenCodeExists)
      <==> req.code.Some? && req.code.value != "" && HasCode(st.screens, req.code.value)
  {
    NextCodeIsFresh(CodesOf(st.screens));
    HasCodeIff(st.screens, NextCode(CodesOf(st.screens)));
  }

  /** Without a code the request always succeeds and adds one screen with a new slug. */
  lemma GeneratedCodeIsUsed(st: RbacState, req: RbacRequest)
    requires WithoutCode(req)
    ensures var out := CreateScreenStep(st, req); var code := NextCode(CodesOf(st.screens));
      && out.reply.Ok? && code !in CodesOf(st.screens) && IsSlug(code)
      && CodesOf(out.state.screens) == CodesOf(st.screens) + [code]
  {
    CreateScreenFailsIff(st, req);
    NextCodeIsFresh(CodesOf(st.screens));
  }

  /** No request removes or changes a screen code. */
  lemma CodesGrow(st: RbacState, req: RbacRequest)
    ensures CodesOf(st.screens) <= CodesOf(RbacStep(st, req).state.screens)
  {
    if req.EnsureCatalog? {
      var s := WithSuperRole(st);
      EntriesOnlyAdd(s, SuperRole(s.roles), CATALOG);
    }
  }

  lemma {:induction false} CodesStay(r: RbacRun, j: nat, k: nat)
    requires r.Valid() && j <= k < |r.states|
    ensures CodesOf(r.states[j].screens) <= CodesOf(r.states[k].screens)
  {
    if j < k {
      CodesStay(r, j, k - 1);
      assert r.StepAt(k - 1);
      CodesGrow(r.states[k - 1], r.requests[k - 1]);
    }
  }

  lemma GenerationAt(r: RbacRun, k: nat)
    requires r.Valid() && k < |r.requests| && WithoutCode(r.requests[k])
    ensures var codes := CodesOf(r.states[k].screens); CodesOf(r.states[k + 1].screens) == codes + [NextCode(codes)]
  {
    assert r.StepAt(k);
    GeneratedCodeIsUsed(r.states[k], r.requests[k]);
  }

  lemma InExtension(codes: seq<string>, code: string, later: seq<string>)
    requires codes + [code] <= later
    ensures code in later
  {
    assert later[|codes|] == code;
  }

  /** In any run from any tables, codes generated later have larger numbers. */
  lemma LaterCodesAreLarger(r: RbacRun, j: nat, k: nat)
    requires r.Valid() && j < k < |r.requests| && WithoutCode(r.requests[j]) && WithoutCode(r.requests[k])
    ensures var first, second := NextCode(CodesOf(r.states[j].screens)), NextCode(CodesOf(r.states[k].screens));
      && first in CodesOf(r.states[j + 1].screens) && second in CodesOf(r.states[k + 1].screens)
      && Suffix(first).Some? && Suffix(second).Some? && Suffix(first).value < Suffix(second).value
  {
    var before, after := CodesOf(r.states[j].screens), CodesOf(r.states[k].screens);
    GenerationAt(r, j);
    GenerationAt(r, k);
    CodesStay(r, j + 1, k);
    InExtension(before, NextCode(before), CodesOf(r.states[j + 1].screens));
    InExtension(before, NextCode(before), after);
    InExtension(after, NextCode(after), CodesOf(r.states[k + 1].screens));
    GeneratedSuffixesGrow(before, after);
  }
}
