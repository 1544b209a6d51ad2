/** The milestone panel of a job backed by the milestone contract: who counts as
    the client, which chain milestones are shown, when "Pay" is offered and what the
    create form does to the panel. */
module JobMilestones {
  import opened Common
  import WalletContext

  /** A milestone as `milestones(i)` returns it. */
  datatype ChainMilestone = ChainMilestone(id: int, jobId: int, description: string, amount: nat, status: int)

  /** What the milestone contract answers: `milestoneCounter()` (None when the call
      throws) and `milestones(i)` for each index (None when the call throws; an
      index past the end throws as well). */
  datatype MilestoneContract = MilestoneContract(counter: Option<nat>, entries: seq<Option<ChainMilestone>>)

  /** The component state: the milestones shown and the two inputs of the create form. */
  datatype Panel = Panel(milestones: seq<ChainMilestone>, description: string, amount: string)

  const InitialPanel: Panel := Panel([], "", "")

  /** `address?.toLowerCase() === clientAddress?.toLowerCase()`: two absent addresses
      compare equal (both sides are `undefined`). */
  function IsClient(address: Option<string>, clientAddress: Option<string>): (r: bool)
    ensures address.None? && clientAddress.None? ==> r
    ensures address.None? != clientAddress.None? ==> !r
    ensures address.Some? && clientAddress.Some? ==>
              (r <==> ToLower(address.value) == ToLower(clientAddress.value))
  {
    match (address, clientAddress)
    case (None, None) => true
    case (Some(a), Some(c)) => ToLower(a) == ToLower(c)
    case _ => false
  }

  /** The client check ignores letter case: an address matches its upper-cased
      spelling. */
  lemma IsClientIgnoresCase(a: string, b: string)
    requires |a| == |b| && forall i :: 0 <= i < |a| ==> LowerChar(a[i]) == LowerChar(b[i])
    ensures IsClient(Some(a), Some(b))
  {
    assert ToLower(a) == ToLower(b);
  }

  /** `m.jobId.toString() === jobId.toString()`. */
  predicate BelongsTo(m: ChainMilestone, jobId: int) {
    IntToString(m.jobId) == IntToString(jobId)
  }

  /** Comparing the printed ids is comparing the ids. */
  lemma BelongsToIffSameJob(m: ChainMilestone, jobId: int)
    ensures BelongsTo(m, jobId) <==> m.jobId == jobId
  {
    IntToStringInjective(m.jobId, jobId);
  }

  /** The milestones of `entries` that belong to `jobId`, in order. */
  function ForJob(entries: seq<ChainMilestone>, jobId: int): (r: seq<ChainMilestone>)
    ensures |r| <= |entries|
    ensures forall m :: m in r <==> m in entries && BelongsTo(m, jobId)
    decreases |entries|
  {
    if |entries| == 0 then []
    else
      var init := entries[..|entries| - 1];
      var last := entries[|entries| - 1];
      assert entries == init + [last];
      ForJob(init, jobId) + (if BelongsTo(last, jobId) then [last] else [])
  }

  /** `idx` lists, in strictly increasing order, exactly the indices of `entries`
      whose milestone has job id `jobId` (which is `BelongsTo`, by
      `BelongsToIffSameJob`), and `r` holds those milestones in that order. */
  predicate SelectsInOrder(entries: seq<ChainMilestone>, jobId: int, r: seq<ChainMilestone>, idx: seq<nat>) {
    && |idx| == |r|
    && (forall i :: 0 <= i < |idx| ==> idx[i] < |entries| && r[i] == entries[idx[i]] && entries[idx[i]].jobId == jobId)
    && (forall i, j :: 0 <= i < j < |idx| ==> idx[i] < idx[j])
    && (forall k :: 0 <= k < |entries| && entries[k].jobId == jobId ==> k in idx)
  }

  /** One more entry: a selection of `init` extends to `init + [last]`, by the new
      index when `last` matches and unchanged otherwise. */
  lemma SelectsSnoc(init: seq<ChainMilestone>, last: ChainMilestone, jobId: int, r: seq<ChainMilestone>, idx: seq<nat>)
    requires SelectsInOrder(init, jobId, r, idx)
    ensures last.jobId == jobId ==> SelectsInOrder(init + [last], jobId, r + [last], idx + [|init|])
    ensures last.jobId != jobId ==> SelectsInOrder(init + [last], jobId, r, idx)
  {
    var entries := init + [last];
    var n := |init|;
    forall k | 0 <= k < n
      ensures entries[k] == init[k]
    {
    }
    if last.jobId == jobId {
      var idx' := idx + [n];
      var r' := r + [last];
      forall i | 0 <= i < |idx'|
        ensures idx'[i] < |entries| && r'[i] == entries[idx'[i]] && entries[idx'[i]].jobId == jobId
      {
        if i < |idx| { assert idx'[i] == idx[i] && r'[i] == r[i]; }
      }
      forall k | 0 <= k < |entries| && entries[k].jobId == jobId
        ensures k in idx'
      {
        if k < n { assert k in idx; }
      }
    } else {
      forall k | 0 <= k < |entries| && entries[k].jobId == jobId
        ensures k in idx
      {
        assert k != n;
      }
    }
  }

  /** Filtering a list extended by one entry extends the result by that entry
      exactly when it matches. */
  lemma ForJobSnoc(init: seq<ChainMilestone>, last: ChainMilestone, jobId: int)
    ensures ForJob(init + [last], jobId) == ForJob(init, jobId) + (if last.jobId == jobId then [last] else [])
  {
    assert (init + [last])[..|init|] == init;
    BelongsToIffSameJob(last, jobId);
  }

  /** `filter` keeps order and multiplicity: the result is the matching entries,
      each once per occurrence, in their original order. */
  lemma {:induction false} ForJobSelectsInOrder(entries: seq<ChainMilestone>, jobId: int)
    ensures exists idx :: SelectsInOrder(entries, jobId, ForJob(entries, jobId), idx)
    decreases |entries|
  {
    if |entries| == 0 {
      assert SelectsInOrder(entries, jobId, ForJob(entries, jobId), []);
    } else {
      var init := entries[..|entries| - 1];
      var last := entries[|entries| - 1];
      assert entries == init + [last];
      ForJobSelectsInOrder(init, jobId);
      var idx0 :| SelectsInOrder(init, jobId, ForJob(init, jobId), idx0);
      var idx := ForJobSelectsStep(init, last, jobId, idx0);
    }
  }

  /** The induction step: a selection for `init` gives one for `init + [last]`. */
  lemma ForJobSelectsStep(init: seq<ChainMilestone>, last: ChainMilestone, jobId: int, idx0: seq<nat>)
    returns (idx: seq<nat>)
    requires SelectsInOrder(init, jobId, ForJob(init, jobId), idx0)
    ensures SelectsInOrder(init + [last], jobId, ForJob(init + [last], jobId), idx)
  {
    ForJobSnoc(init, last, jobId);
    SelectsSnoc(init, last, jobId, ForJob(init, jobId), idx0);
    idx := if last.jobId == jobId then idx0 + [|init|] else idx0;
  }

  /** Every call up to `total` answered. */
  predicate ReadsSucceed(c: MilestoneContract) {
    c.counter.Some? && c.counter.value <= |c.entries| && forall k :: 0 <= k < c.counter.value ==> c.entries[k].Some?
  }

  /** The first `n` entries read, when all of them were read successfully. */
  function Read(entries: seq<Option<ChainMilestone>>, n: nat): (r: seq<ChainMilestone>)
    requires n <= |entries| && forall k :: 0 <= k < n ==> entries[k].Some?
    ensures |r| == n && forall k :: 0 <= k < n ==> r[k] == entries[k].value
  {
    seq(n, k requires 0 <= k < n && entries[k].Some? => entries[k].value)
  }

  /** Reading one more entry extends the filtered list by that entry when it
      belongs to the job. */
  lemma ReadStep(entries: seq<Option<ChainMilestone>>, i: nat, jobId: int)
    requires i < |entries| && forall k :: 0 <= k <= i ==> entries[k].Some?
    ensures ForJob(Read(entries, i + 1), jobId)
            == ForJob(Read(entries, i), jobId) + (if BelongsTo(entries[i].value, jobId) then [entries[i].value] else [])
  {
    var next := Read(entries, i + 1);
    var prev := Read(entries, i);
    assert next[..|next| - 1] == prev;
    assert next[|next| - 1] == entries[i].value;
  }

  /** The panel a fetch leaves: the job's milestones among the first `total`
      entries when every read succeeds, and the panel unchanged otherwise. */
  function Fetched(p: Panel, hasContract: bool, c: MilestoneContract, jobId: int): Panel {
    if hasContract && ReadsSucceed(c) then p.(milestones := ForJob(Read(c.entries, c.counter.value), jobId)) else p
  }

  /** `fetchMilestones`: without a milestone contract nothing happens; otherwise
      the milestones at indices `0 .. total-1` whose job id matches are collected in
      index order and replace the list, unless a call throws on the way, in which
      case the list shown stays as it was. */
  method FetchMilestones(p: Panel, hasContract: bool, c: MilestoneContract, jobId: int) returns (r: Panel)
    ensures r == Fetched(p, hasContract, c, jobId)
    ensures !hasContract ==> r == p
    ensures hasContract && !ReadsSucceed(c) ==> r == p
    ensures hasContract && ReadsSucceed(c) ==> r == p.(milestones := ForJob(Read(c.entries, c.counter.value), jobId))
  {
    if !hasContract {
      return p;
    }
    if c.counter.None? {
      return p;
    }
    var total := c.counter.value;
    var items := [];
    var i := 0;
    while i < total
      invariant 0 <= i <= total
      invariant i <= |c.entries| && forall k :: 0 <= k < i ==> c.entries[k].Some?
      invariant items == ForJob(Read(c.entries, i), jobId)
    {
      if i >= |c.entries| || c.entries[i].None? {
        return p;
      }
      var m := c.entries[i].value;
      ReadStep(c.entries, i, jobId);
      if IntToString(m.jobId) == IntToString(jobId) {
        items := items + [m];
      }
      i := i + 1;
    }
    return p.(milestones := items);
  }

  /** The payment "Pay" sends: `payMilestone(m.id, { value: m.amount })`. */
  datatype Payment = Payment(milestoneId: int, value: nat)

  /** One row of the panel: its status text and the payment its "Pay" button makes,
      if it has one. */
  datatype Row = Row(text: string, pay: Option<Payment>)

  function RowOf(client: bool, m: ChainMilestone): (r: Row)
    ensures r.text in {"Paid", "Pending"}
    ensures r.text == "Paid" <==> m.status == 1
    ensures r.pay.Some? <==> client && m.status == 0
    ensures r.pay.Some? ==> r.pay.value.value == m.amount && r.pay.value.milestoneId == m.id
  {
    Row(if m.status == 1 then "Paid" else "Pending", if client && m.status == 0 then Some(Payment(m.id, m.amount)) else None)
  }

  /** What the panel shows: the "No milestones yet." notice, one row per milestone,
      and the create form. */
  datatype PanelView = PanelView(emptyNotice: bool, rows: seq<Row>, createForm: bool)

  /** The rows for `ms`, one per milestone in order. */
  function Rows(client: bool, ms: seq<ChainMilestone>): (r: seq<Row>)
    ensures |r| == |ms| && forall i :: 0 <= i < |ms| ==> r[i] == RowOf(client, ms[i])
  {
    seq(|ms|, i requires 0 <= i < |ms| => RowOf(client, ms[i]))
  }

  function Render(p: Panel, address: Option<string>, clientAddress: Option<string>): (r: PanelView)
    ensures r.emptyNotice <==> |p.milestones| == 0
    ensures |r.rows| == |p.milestones|
    ensures forall i :: 0 <= i < |p.milestones| ==> r.rows[i] == RowOf(IsClient(address, clientAddress), p.milestones[i])
    ensures r.createForm <==> IsClient(address, clientAddress)
    ensures !IsClient(address, clientAddress) ==> forall i :: 0 <= i < |r.rows| ==> r.rows[i].pay.None?
  {
    PanelView(|p.milestones| == 0, Rows(IsClient(address, clientAddress), p.milestones), IsClient(address, clientAddress))
  }

  /** The payments the rows offer, in row order. */
  function Offered(rows: seq<Row>): seq<Payment>
    decreases |rows|
  {
    if |rows| == 0 then []
    else
      var last := rows[|rows| - 1];
      Offered(rows[..|rows| - 1]) + (if last.pay.Some? then [last.pay.value] else [])
  }

  /** Reference: the payments of the unpaid milestones of `jobId` among `entries`, in order. */
  function UnpaidOfJob(entries: seq<ChainMilestone>, jobId: int): seq<Payment>
    decreases |entries|
  {
    if |entries| == 0 then []
    else
      var m := entries[|entries| - 1];
      UnpaidOfJob(entries[..|entries| - 1], jobId) + (if m.jobId == jobId && m.status == 0 then [Payment(m.id, m.amount)] else [])
  }

  /** The client's Pay buttons over the filtered list are exactly the unpaid
      milestones of the job, each paying its own amount, in the order read. */
  lemma {:induction false} ClientPaysUnpaidOfJob(entries: seq<ChainMilestone>, jobId: int)
    ensures Offered(Rows(true, ForJob(entries, jobId))) == UnpaidOfJob(entries, jobId)
    decreases |entries|
  {
    if |entries| > 0 {
      var init := entries[..|entries| - 1];
      var last := entries[|entries| - 1];
      assert entries == init + [last];
      ClientPaysUnpaidOfJob(init, jobId);
      ClientPaysStep(init, last, jobId);
    }
  }

  /** The induction step of `ClientPaysUnpaidOfJob`. */
  lemma ClientPaysStep(init: seq<ChainMilestone>, last: ChainMilestone, jobId: int)
    requires Offered(Rows(true, ForJob(init, jobId))) == UnpaidOfJob(init, jobId)
    ensures Offered(Rows(true, ForJob(init + [last], jobId))) == UnpaidOfJob(init + [last], jobId)
  {
    ForJobSnoc(init, last, jobId);
    UnpaidSnoc(init, last, jobId);
    if last.jobId == jobId {
      RowsSnoc(true, ForJob(init, jobId), last);
      OfferedSnoc(Rows(true, ForJob(init, jobId)), RowOf(true, last));
    } else {
      assert ForJob(init + [last], jobId) == ForJob(init, jobId);
      assert UnpaidOfJob(init + [last], jobId) == UnpaidOfJob(init, jobId);
    }
  }

  lemma RowsSnoc(client: bool, ms: seq<ChainMilestone>, m: ChainMilestone)
    ensures Rows(client, ms + [m]) == Rows(client, ms) + [RowOf(client, m)]
  {
  }

  lemma OfferedSnoc(rows: seq<Row>, x: Row)
    ensures Offered(rows + [x]) == Offered(rows) + (if x.pay.Some? then [x.pay.value] else [])
  {
    assert (rows + [x])[..|rows|] == rows;
  }

  lemma UnpaidSnoc(init: seq<ChainMilestone>, m: ChainMilestone, jobId: int)
    ensures UnpaidOfJob(init + [m], jobId)
            == UnpaidOfJob(init, jobId) + (if m.jobId == jobId && m.status == 0 then [Payment(m.id, m.amount)] else [])
  {
    assert (init + [m])[..|init|] == init;
  }

  /** After a successful fetch the client is offered Pay on exactly the job's
      status-0 milestones, in fetch order; anyone else is offered none. */
  lemma PayOfferedAfterFetch(p: Panel, c: MilestoneContract, jobId: int, address: Option<string>, clientAddress: Option<string>)
    requires ReadsSucceed(c)
    ensures var rows := Render(Fetched(p, true, c, jobId), address, clientAddress).rows;
            && (IsClient(address, clientAddress) ==> Offered(rows) == UnpaidOfJob(Read(c.entries, c.counter.value), jobId))
            && (!IsClient(address, clientAddress) ==> Offered(rows) == [])
  {
    var rows := Render(Fetched(p, true, c, jobId), address, clientAddress).rows;
    if IsClient(address, clientAddress) {
      ClientPaysUnpaidOfJob(Read(c.entries, c.counter.value), jobId);
    } else {
      NoPayOffered(rows);
    }
  }

  /** Rows without a payment offer none. */
  lemma {:induction false} NoPayOffered(rows: seq<Row>)
    requires forall i :: 0 <= i < |rows| ==> rows[i].pay.None?
    ensures Offered(rows) == []
    decreases |rows|
  {
    if |rows| > 0 {
      NoPayOffered(rows[..|rows| - 1]);
    }
  }

  /** What a create or pay handler leaves: the panel, and whether it fetches again. */
  datatype Handled = Handled(panel: Panel, refetch: bool)

  /** `handleCreateMilestone` after `createMilestone(jobId, description, amount)`:
      when the call resolves the two inputs are cleared and a fetch follows; when
      it throws the panel is left as it was. */
  function AfterCreate(p: Panel, outcome: CallOutcome): (r: Handled)
    ensures outcome.Resolved? ==> r.panel.milestones == p.milestones && r.panel.description == "" && r.panel.amount == ""
    ensures r.refetch <==> outcome.Resolved?
    ensures outcome.Threw? ==> r.panel == p
  {
    match outcome
    case Resolved => Handled(p.(description := "", amount := ""), true)
    case Threw => Handled(p, false)
  }

  /** `handlePay` after `payMilestone(id, { value })`: a fetch follows when the call
      resolves; the panel itself is not touched. */
  function AfterPay(p: Panel, outcome: CallOutcome): (r: Handled)
    ensures r.panel == p
    ensures r.refetch <==> outcome.Resolved?
  {
    Handled(p, outcome.Resolved?)
  }

  /** A resolved create followed by its fetch shows the job's milestones as the
      contract now holds them, with both inputs cleared. */
  lemma CreateThenFetch(p: Panel, c: MilestoneContract, jobId: int)
    requires ReadsSucceed(c)
    ensures var h := AfterCreate(p, Resolved);
            && h.refetch
            && Fetched(h.panel, true, c, jobId) == Panel(ForJob(Read(c.entries, c.counter.value), jobId), "", "")
  {
  }

  /** The context carries no `createMilestone` and no `payMilestone`: both calls
      throw, so neither handler clears the form or fetches again. */
  lemma ContextNeverCreatesOrPays(p: Panel, outcome: CallOutcome)
    ensures AfterCreate(p, WalletContext.CallThroughContext("createMilestone", outcome)) == Handled(p, false)
    ensures AfterPay(p, WalletContext.CallThroughContext("payMilestone", outcome)) == Handled(p, false)
  {
  }
}
