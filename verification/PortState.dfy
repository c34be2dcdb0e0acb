/** What a debug port remembers between operations, and when that is right. */
module DapState {
  import opened Words
  import opened SwdTarget
  import opened SwdLink
  import opened SwdBatch
  import opened DapPlan

  datatype Session = NoSession | Connected | RepairRequired

  datatype Grammar = Unchecked | SimpleResponse | OverrunResponse | Lost

  datatype PortState = PortState(session: Session, response: Grammar,
                                 select: Cache, prior: Cache, pending: bool,
                                 writePending: bool, generation: nat)

  function RecordSelect(st: PortState, value: Word): PortState {
    st.(prior := st.select, select := Cached(value), pending := true)
  }

  function ConfirmSelect(st: PortState): PortState {
    st.(prior := Empty, pending := false)
  }

  function InvalidateSelect(st: PortState): PortState {
    ConfirmSelect(st.(select := Empty))
  }

  function BeginEntry(st: PortState): PortState {
    InvalidateSelect(st.(response := Unchecked)).(writePending := false)
  }

  function InvalidateAp(st: PortState): PortState {
    st.(generation := st.generation + 1)
  }

  function LoseFraming(st: PortState): PortState {
    InvalidateSelect((if st.response.Lost? then st else InvalidateAp(st)).(session := RepairRequired, response := Lost))
  }

  predicate IsBankZero(c: Cache) {
    c.Cached? && BankOf(c.value) == 0
  }

  /** CTRL/STAT can be read whether or not a provisional SELECT took effect. */
  predicate FaultBankZero(st: PortState) {
    IsBankZero(st.select) && (st.pending ==> IsBankZero(st.prior))
  }

  predicate ResponseKnown(st: PortState) {
    st.response.SimpleResponse? || st.response.OverrunResponse?
  }

  function ConfirmResponse(st: PortState, ctrl: Word): PortState {
    st.(response := if OrunDetect(ctrl) then OverrunResponse else SimpleResponse)
  }

  function ResolveFromCtrlStat(st: PortState, ctrl: Word): PortState {
    if !st.pending then st
    else if WdataErr(ctrl) then InvalidateSelect(st)
    else ConfirmSelect(st)
  }

  /** What the response to one request says about a provisional SELECT. */
  function Resolve(st: PortState, req: Req, value: Word, e: Failure): PortState {
    if !st.pending then st
    else if e.Wait? || e.Unclean? then (if st.response.OverrunResponse? then LoseFraming(st) else st)
    else if IsAbortWrite(req) then (if e.NoError? then InvalidateSelect(st) else st)
    else if IsIdRead(req) then st
    else if IsCtrlStatRead(req) && IsBankZero(st.select) then
      if e.NoError? then ResolveFromCtrlStat(st, value) else st
    else if e.NoError? || e.Parity? then ConfirmSelect(st)
    else st
  }

  predicate SettlesPreviousWrite(req: Req, e: Failure) {
    && (e.NoError? || e.Wait? || e.Parity?)
    && (req.ap || (req.read && req.addr != 0x00 && req.addr != 0x04))
  }

  /** The SELECT cache and the target. A confirmed value is the target's. A
      provisional one is too, or its data was lost: then WDATAERR is up and the
      target still has the prior value, where that is known. */
  ghost predicate Agrees(st: PortState, t: Target) {
    && (st.pending ==> st.select.Cached?)
    && (st.select.Cached? ==>
          || t.select == st.select.value
          || (st.pending && t.ctrl.wdata && (st.prior.Cached? ==> t.select == st.prior.value)))
  }

  ghost predicate Exact(st: PortState, t: Target) {
    st.select.Cached? ==> t.select == st.select.value
  }

  /** What one transfer on its own did, for each outcome it can report. */
  ghost predicate Once(env: Env, t0: Target, f: Frame, r: Res, t: Target) {
    && (!f.req.ap ==> t.hist == t0.hist)
    && (t.hist == t0.hist || t.hist == Apply(env, t0, f).hist)
    && (r.e.NoError? ==>
          r.value == Response(env, t0, f) && (t == Apply(env, t0, f) || (!f.req.read && t == Lose(t0))))
    && (r.e.Parity? ==> f.req.read && t == Apply(env, t0, f))
    && (r.e.Wait? ==> Resumed(t0, t))
    && (r.e.NoError? || r.e.Parity? || r.e.Wait? ==> Sticky(t0) ==> Exempt(f.req, t0.select))
    && (r.e.Fault? || r.e.Unsent? || r.e.Invalid? ==> t == t0 || t == Reject(t0))
  }

  lemma {:induction false} DpHist(env: Env, t: Target, f: Frame)
    requires !f.req.ap
    ensures Apply(env, t, f).hist == t.hist
  {
  }

  lemma {:induction false} OnceDelivered(env: Env, t0: Target, f: Frame, r: Res, n: nat, k: nat, t: Target)
    requires Delivered(env, t0, [f], [r], n, k, t)
    ensures Once(env, t0, f, r, t)
  {
    hide Apply, Response, Resumed, Reject, Lose, Sticky, Exempt;
    assert Exec(env, t0, [f], 0) == t0;
    assert Exec(env, t0, [f], 1) == Apply(env, t0, f);
    if !f.req.ap {
      DpHist(env, t0, f);
    }
    if n == 1 || r.e.Parity? {
      assert Allowed(env, t0, [f], 0);
    }
  }

  /** Observing any outcome of one request keeps the cache right. A banked read is
      never sent while SELECT is provisional. */
  lemma {:induction false} ResolveAgrees(env: Env, st: PortState, t0: Target, f: Frame, r: Res, t: Target)
    requires Agrees(st, t0) && Once(env, t0, f, r, t) && !r.e.Uncertain? && !r.e.Unclean?
    requires st.pending ==> !IsCtrlStatRead(f.req)
    requires !(IsSelectWrite(f.req) && r.e.NoError?)
    ensures Agrees(Resolve(st, f.req, r.value, r.e), t)
  {
    hide Response, Port, SetPower, ClearSticky;
    assert Exempt(f.req, t0.select) || !t0.ctrl.wdata || r.e.Fault? || r.e.Unsent? || r.e.Invalid?;
  }

  /** A SELECT write that was answered OK is recorded as provisional. */
  lemma {:induction false} RecordAgrees(env: Env, st: PortState, t0: Target, f: Frame, r: Res, t: Target)
    requires Agrees(st, t0) && Once(env, t0, f, r, t) && r.e.NoError? && IsSelectWrite(f.req)
    ensures Agrees(RecordSelect(Resolve(st, f.req, r.value, r.e), f.data), t)
  {
  }

  /** A request that was made to wait found the SELECT write before it in effect. */
  lemma {:induction false} WaitExact(env: Env, st: PortState, t0: Target, f: Frame, r: Res, t: Target)
    requires Agrees(st, t0) && Once(env, t0, f, r, t) && r.e.Wait?
    requires st.pending ==> NeverExempt(f.req)
    ensures Exact(st, t0) && Exact(st, t) && t.select == t0.select && t.hist == t0.hist
  {
  }

  /** The answer to a CTRL/STAT read in bank zero is the target's CTRL/STAT. */
  lemma {:induction false} CtrlStatValue(env: Env, st: PortState, t0: Target, r: Res, t: Target)
    requires Agrees(st, t0) && FaultBankZero(st) && r.e.NoError?
    requires Once(env, t0, DpFrame(CTRLSTAT, true, 0), r, t)
    ensures r.value == CtrlWord(t.ctrl) && t == t0
    ensures WdataErr(r.value) == t.ctrl.wdata && OrunDetect(r.value) == Overrun(t)
    ensures Agrees(ResolveFromCtrlStat(st, r.value), t)
  {
    hide CtrlWord, WdataErr, OrunDetect;
    CtrlWordFlags(t0.ctrl);
  }

  /** ABORT leaves SELECT alone; with nothing provisional that is all that matters. */
  lemma {:induction false} AbortKeeps(env: Env, st: PortState, t0: Target, data: Word, r: Res, t: Target)
    requires Exact(st, t0) && Once(env, t0, DpFrame(ABORT, false, data), r, t) && !r.e.Uncertain? && !r.e.Unclean?
    ensures Exact(st, t)
  {
    hide ClearSticky;
  }

  /** The state after one observed request. */
  function Observed(st: PortState, settle: bool, req: Req, r: Res): PortState {
    var m := Resolve(st, req, r.value, r.e);
    if settle && SettlesPreviousWrite(req, r.e) then m.(writePending := false) else m
  }

  lemma {:induction false} ObservedAgrees(env: Env, st: PortState, settle: bool, t0: Target, f: Frame, r: Res,
                                          t: Target)
    requires Agrees(st, t0) && Once(env, t0, f, r, t) && !r.e.Uncertain? && !r.e.Unclean?
    requires st.pending ==> !IsCtrlStatRead(f.req)
    ensures var m := Observed(st, settle, f.req, r);
            Agrees(if IsSelectWrite(f.req) && r.e.NoError? then RecordSelect(m, f.data) else m, t)
  {
    hide Once, Resolve;
    if IsSelectWrite(f.req) && r.e.NoError? {
      RecordAgrees(env, st, t0, f, r, t);
    } else {
      ResolveAgrees(env, st, t0, f, r, t);
    }
  }

  /** DAPABORT alone clears nothing. */
  lemma {:induction false} AbortOnce(env: Env, st: PortState, t0: Target, r: Res, t: Target)
    requires Exact(st, t0) && Once(env, t0, DpFrame(ABORT, false, DAPABORT), r, t) && r.e.NoError?
    ensures Exact(st, t)
  {
    AbortKeeps(env, st, t0, DAPABORT, r, t);
  }

  /** A CTRL/STAT read changes neither SELECT nor its provisional standing. */
  lemma {:induction false} CtrlReadKeeps(env: Env, st: PortState, t0: Target, r: Res, t: Target)
    requires Agrees(st, t0) && !r.e.Uncertain? && !r.e.Unclean?
    requires Once(env, t0, DpFrame(CTRLSTAT, true, 0), r, t)
    ensures Agrees(st, t)
  {
    hide CtrlWord;
  }
}
