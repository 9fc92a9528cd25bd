/** The outbox poller: each poll takes the oldest hundred pending rows and tries to append each. */
module OutboxPoller {
  const BATCH: nat := 100
  const MAX_RETRIES: nat := 10

  /** A row, with how often its append has succeeded and failed so far. */
  datatype Row = Row(processed: bool, retries: nat, appended: nat, refused: nat) {
    predicate Pending() { !processed && retries < MAX_RETRIES }
  }

  /** The table in `created_at` order: rows are never deleted and new ones arrive at the end,
      so an index names a row for good. */
  type Table = seq<Row>

  /** What the world answers during one poll, row by row. */
  datatype World = World(queryOk: bool, scans: nat -> bool, appends: nat -> bool, updates: nat -> bool)

  function CountPending(t: Table): nat {
    if t == [] then 0 else CountPending(t[..|t| - 1]) + if t[|t| - 1].Pending() then 1 else 0
  }

  /** The rows the query selects: pending, with fewer than a hundred pending rows before them. */
  predicate Selected(t: Table, i: nat) {
    i < |t| && t[i].Pending() && CountPending(t[..i]) < BATCH
  }

  function Tried(r: Row, appendOk: bool, updateOk: bool): Row {
    if appendOk then Row(r.processed || updateOk, r.retries, r.appended + 1, r.refused)
    else Row(r.processed, r.retries + (if updateOk then 1 else 0), r.appended, r.refused + 1)
  }

  /** What one poll makes of row `i`. */
  function PolledRow(t: Table, w: World, i: nat): Row
    requires i < |t|
  {
    if w.queryOk && Selected(t, i) && w.scans(i) then Tried(t[i], w.appends(i), w.updates(i)) else t[i]
  }

  /** The table after one poll. */
  function Polled(t: Table, w: World): Table {
    seq(|t|, i requires 0 <= i < |t| => PolledRow(t, w, i))
  }

  /** Not processed, and retried fewer than ten times. */
  predicate Waits(r: Row) { !r.processed && r.retries < 10 }

  class Poller {
    var table: Table

    constructor (table: Table)
      ensures this.table == table
    {
      this.table := table;
    }

    /** SELECT ... WHERE processed_at IS NULL AND retry_count < 10 ORDER BY created_at LIMIT 100. */
    method Query() returns (rows: seq<nat>)
      ensures |rows| <= 100
      ensures forall i, j :: 0 <= i < j < |rows| ==> rows[i] < rows[j]
      ensures forall k :: 0 <= k < |rows| ==> rows[k] < |table| && Waits(table[rows[k]])
      ensures forall i: nat :: i < |table| && Waits(table[i]) && i !in rows ==> |rows| == 100 && rows[99] < i
      ensures forall i: nat :: i in rows <==> Selected(table, i)
    {
      rows := [];
      var n := 0;
      while n < |table| && |rows| < BATCH
        invariant 0 <= n <= |table| && |rows| <= BATCH
        invariant |rows| == CountPending(table[..n])
        invariant forall i :: 0 <= i < |rows| ==> rows[i] < n && Waits(table[rows[i]])
        invariant forall i, j :: 0 <= i < j < |rows| ==> rows[i] < rows[j]
        invariant forall i: nat :: i in rows <==> i < n && Selected(table, i)
        invariant forall i: nat :: i < n && Waits(table[i]) ==> i in rows
      {
        assert table[..n + 1][..n] == table[..n];
        if table[n].Pending() {
          rows := rows + [n];
        }
        n := n + 1;
      }
      forall i: nat | n <= i < |table|
        ensures !Selected(table, i)
      {
        CountGrows(table, n, i);
      }
    }

    method PollOutbox(w: World)
      modifies this
      ensures table == Polled(old(table), w)
    {
      if !w.queryOk {
        return;
      }
      var rows := Query();
      for k := 0 to |rows|
        invariant |table| == |old(table)|
        invariant forall i: nat :: i < |table| && i in rows[..k] ==> table[i] == PolledRow(old(table), w, i)
        invariant forall i: nat :: i < |table| && i !in rows[..k] ==> table[i] == old(table)[i]
      {
        var i := rows[k];
        assert i !in rows[..k] && rows[..k + 1] == rows[..k] + [i];
        assert Selected(old(table), i) && table[i] == old(table)[i];
        if w.scans(i) {
          if !w.appends(i) {
            table := table[i := table[i].(refused := table[i].refused + 1)];
            if w.updates(i) {
              table := table[i := table[i].(retries := table[i].retries + 1)];
            }
          } else {
            table := table[i := table[i].(appended := table[i].appended + 1)];
            if w.updates(i) {
              table := table[i := table[i].(processed := true)];
            }
          }
        }
      }
      assert rows[..|rows|] == rows;
    }
  }

  lemma CountGrows(t: Table, i: nat, j: nat)
    requires i <= j <= |t|
    ensures CountPending(t[..i]) <= CountPending(t[..j])
  {
    if i < j {
      assert t[..j][..j - 1] == t[..j - 1];
      CountGrows(t, i, j - 1);
    }
  }

  /** What a poll makes of a row: nothing if the query fails, does not select it, or it cannot be scanned; otherwise it
      counts one append that went through, and marks the row processed if that update did, or one that was refused,
      and one more retry if that update went through. A selected row waits. */
  lemma PolledInFull(t: Table, w: World, i: nat)
    requires i < |t|
    ensures var r, r' := t[i], Polled(t, w)[i];
      if !w.queryOk || !Selected(t, i) || !w.scans(i) then r' == r
      else
        && Waits(r)
        && r' == if w.appends(i) then Row(w.updates(i), r.retries, r.appended + 1, r.refused)
                 else Row(false, if w.updates(i) then r.retries + 1 else r.retries, r.appended, r.refused + 1)
  {
  }

  // ---- Runs: polls, with new rows arriving behind after each ----

  datatype Round = Round(world: World, arrivals: seq<Row>)

  function Next(t: Table, r: Round): (u: Table)
    ensures |u| == |t| + |r.arrivals|
    ensures forall i :: 0 <= i < |t| ==> u[i] == PolledRow(t, r.world, i)
    ensures forall i :: |t| <= i < |u| ==> u[i] == r.arrivals[i - |t|]
  {
    Polled(t, r.world) + r.arrivals
  }

  function After(t: Table, rounds: seq<Round>): Table
    decreases |rounds|
  {
    if rounds == [] then t else After(Next(t, rounds[0]), rounds[1..])
  }

  /** Queries, scans and updates succeed; appends may do anything. */
  ghost predicate Healthy(w: World) {
    w.queryOk && (forall i :: w.scans(i)) && (forall i :: w.updates(i))
  }

  ghost predicate AllHealthy(rounds: seq<Round>) {
    forall k :: 0 <= k < |rounds| ==> Healthy(rounds[k].world)
  }

  /** `u` is `t` some time later: the same rows first, a row no longer pending stays so, and nothing
      a row has been through is forgotten. */
  ghost predicate Later(t: Table, u: Table) {
    && |t| <= |u|
    && forall i :: 0 <= i < |t| ==>
        && (u[i].Pending() ==> t[i].Pending())
        && t[i].retries <= u[i].retries && t[i].appended <= u[i].appended && t[i].refused <= u[i].refused
  }

  lemma PolledIsLater(t: Table, r: Round)
    ensures Later(t, Next(t, r))
  {
  }

  lemma {:induction false} AfterIsLater(t: Table, rounds: seq<Round>)
    ensures Later(t, After(t, rounds))
    decreases |rounds|
  {
    if rounds != [] {
      PolledIsLater(t, rounds[0]);
      AfterIsLater(Next(t, rounds[0]), rounds[1..]);
    }
  }

  lemma {:induction false} LaterCountsLess(t: Table, u: Table, i: nat)
    requires Later(t, u) && i <= |t|
    ensures CountPending(u[..i]) <= CountPending(t[..i])
  {
    if i != 0 {
      assert t[..i][..i - 1] == t[..i - 1] && u[..i][..i - 1] == u[..i - 1];
      LaterCountsLess(t, u, i - 1);
    }
  }

  /** A selected row is selected again and again until it stops being pending: in n healthy polls
      it either leaves or collects n more retries. */
  lemma {:induction false} SelectedRowWearsOut(t: Table, rounds: seq<Round>, i: nat)
    requires Selected(t, i) && AllHealthy(rounds)
    ensures var u := After(t, rounds);
      i < |u| && (u[i].Pending() ==> t[i].retries + |rounds| <= u[i].retries)
    decreases |rounds|
  {
    AfterIsLater(t, rounds);
    if rounds != [] {
      var next := Next(t, rounds[0]);
      PolledIsLater(t, rounds[0]);
      AfterIsLater(next, rounds[1..]);
      if next[i].Pending() {
        LaterCountsLess(t, next, i);
        SelectedRowWearsOut(next, rounds[1..], i);
      }
    }
  }

  /** Ten healthy polls clear every row that is selected at their start. */
  lemma TenPollsClearTheBatch(t: Table, rounds: seq<Round>, i: nat)
    requires Selected(t, i) && AllHealthy(rounds) && |rounds| == MAX_RETRIES
    ensures i < |After(t, rounds)| && !After(t, rounds)[i].Pending()
  {
    SelectedRowWearsOut(t, rounds, i);
  }

  /** If only rows beyond the batch are still pending, a batch less is. */
  lemma {:induction false} BatchGone(t: Table, u: Table, i: nat)
    requires i <= |t| && i <= |u|
    requires forall j: nat :: j < i && u[j].Pending() ==> t[j].Pending() && BATCH <= CountPending(t[..j])
    ensures CountPending(u[..i]) <= if CountPending(t[..i]) <= BATCH then 0 else CountPending(t[..i]) - BATCH
  {
    if i != 0 {
      assert t[..i][..i - 1] == t[..i - 1] && u[..i][..i - 1] == u[..i - 1];
      BatchGone(t, u, i - 1);
    }
  }

  /** Ten healthy polls move every row up by a full batch, or to the front. */
  lemma TenPollsAdvance(t: Table, rounds: seq<Round>, i: nat)
    requires i <= |t| && AllHealthy(rounds) && |rounds| == MAX_RETRIES
    ensures i <= |After(t, rounds)|
    ensures CountPending(After(t, rounds)[..i])
         <= if CountPending(t[..i]) <= BATCH then 0 else CountPending(t[..i]) - BATCH
  {
    AfterIsLater(t, rounds);
    var u := After(t, rounds);
    forall j: nat | j < i && u[j].Pending()
      ensures t[j].Pending() && BATCH <= CountPending(t[..j])
    {
      if CountPending(t[..j]) < BATCH {
        TenPollsClearTheBatch(t, rounds, j);
      }
    }
    BatchGone(t, u, i);
  }

  lemma {:induction false} AfterConcat(t: Table, xs: seq<Round>, ys: seq<Round>)
    ensures After(t, xs + ys) == After(After(t, xs), ys)
    decreases |xs|
  {
    if xs == [] {
      assert xs + ys == ys;
    } else {
      assert (xs + ys)[1..] == xs[1..] + ys;
      AfterConcat(Next(t, xs[0]), xs[1..], ys);
    }
  }

  /** Main result on starvation: a pending row with p pending rows before it is selected by one of
      the next 10 * (p / 100) + 1 polls, whatever the appends return and whatever arrives behind it. */
  lemma {:induction false} NoStarvation(t: Table, rounds: seq<Round>, i: nat) returns (k: nat)
    requires i < |t| && t[i].Pending() && AllHealthy(rounds)
    requires |rounds| == 10 * (CountPending(t[..i]) / 100) + 1
    ensures k < |rounds| && Selected(After(t, rounds[..k]), i)
    decreases CountPending(t[..i])
  {
    if CountPending(t[..i]) < BATCH {
      k := 0;
    } else {
      var first, rest := rounds[..MAX_RETRIES], rounds[MAX_RETRIES..];
      var u := After(t, first);
      TenPollsAdvance(t, first, i);
      AfterIsLater(t, first);
      if u[i].Pending() {
        var needed := MAX_RETRIES * (CountPending(u[..i]) / BATCH) + 1;
        var k' := NoStarvation(u, rest[..needed], i);
        k := MAX_RETRIES + k';
        assert rounds[..k] == first + rest[..k'] && rest[..needed][..k'] == rest[..k'];
        AfterConcat(t, first, rest[..k']);
      } else {
        k := LeftBecauseSelected(t, first, i);
        assert rounds[..k] == first[..k];
      }
    }
  }

  /** A row only stops being pending by being selected. */
  lemma {:induction false} LeftBecauseSelected(t: Table, rounds: seq<Round>, i: nat) returns (k: nat)
    requires i < |t| && t[i].Pending()
    requires i < |After(t, rounds)| && !After(t, rounds)[i].Pending()
    ensures k < |rounds| && Selected(After(t, rounds[..k]), i)
    decreases |rounds|
  {
    var next := Next(t, rounds[0]);
    if next[i].Pending() {
      var k' := LeftBecauseSelected(next, rounds[1..], i);
      k := k' + 1;
      assert rounds[..k][1..] == rounds[1..][..k'];
    } else {
      k := 0;
    }
  }

  lemma {:induction false} NeverAppended(t: Table, rounds: seq<Round>, i: nat)
    requires i < |t| && !t[i].processed && forall k :: 0 <= k < |rounds| ==> !rounds[k].world.appends(i)
    ensures var u := After(t, rounds); i < |u| && !u[i].processed && u[i].appended == t[i].appended
    decreases |rounds|
  {
    if rounds != [] {
      NeverAppended(Next(t, rounds[0]), rounds[1..], i);
    }
  }

  lemma ClearedOnceSelected(t: Table, rounds: seq<Round>, i: nat, k: nat)
    requires AllHealthy(rounds) && k + MAX_RETRIES <= |rounds| && Selected(After(t, rounds[..k]), i)
    ensures i < |After(t, rounds)| && !After(t, rounds)[i].Pending()
  {
    SelectedRowWearsOut(After(t, rounds[..k]), rounds[k..], i);
    AfterConcat(t, rounds[..k], rounds[k..]);
    assert rounds == rounds[..k] + rounds[k..];
  }

  /** A pending row whose append is refused by every poll is abandoned within 10 * (p / 100) + 10 polls,
      with p pending rows before it. */
  lemma RefusedRowIsAbandoned(t: Table, rounds: seq<Round>, i: nat)
    requires i < |t| && t[i].Pending() && AllHealthy(rounds)
    requires forall k :: 0 <= k < |rounds| ==> !rounds[k].world.appends(i)
    requires |rounds| == MAX_RETRIES * (CountPending(t[..i]) / BATCH) + MAX_RETRIES
    ensures var u := After(t, rounds);
      i < |u| && !u[i].processed && MAX_RETRIES <= u[i].retries && u[i].appended == t[i].appended
  {
    var k := NoStarvation(t, rounds[..|rounds| - MAX_RETRIES + 1], i);
    assert rounds[..|rounds| - MAX_RETRIES + 1][..k] == rounds[..k];
    ClearedOnceSelected(t, rounds, i, k);
    NeverAppended(t, rounds, i);
  }

  // The bound is reached: n new rows of which no append ever succeeds.

  function RetriesAfter(i: nat, polls: nat): nat {
    var k := polls - MAX_RETRIES * (i / BATCH);
    if k < 0 then 0 else if k < MAX_RETRIES then k else MAX_RETRIES
  }

  /** The rows after `polls` polls that refused everything: batch after batch wears out. */
  function Refusals(n: nat, polls: nat): (t: Table)
    ensures |t| == n
  {
    seq(n, i requires 0 <= i < n => Row(false, RetriesAfter(i, polls), 0, RetriesAfter(i, polls)))
  }

  lemma RefusalPending(n: nat, polls: nat, i: nat)
    requires i < n
    ensures Refusals(n, polls)[i].Pending() <==> BATCH * (polls / MAX_RETRIES) <= i
  {
    assert RetriesAfter(i, polls) < MAX_RETRIES <==> polls / MAX_RETRIES <= i / BATCH;
  }

  lemma {:induction false} RefusalsPending(n: nat, polls: nat, i: nat)
    requires i <= n
    ensures var gone := BATCH * (polls / MAX_RETRIES);
      CountPending(Refusals(n, polls)[..i]) == if i <= gone then 0 else i - gone
  {
    var t := Refusals(n, polls);
    if i != 0 {
      assert t[..i][..i - 1] == t[..i - 1];
      RefusalsPending(n, polls, i - 1);
      RefusalPending(n, polls, i - 1);
    }
  }

  lemma RefusalsSelected(n: nat, polls: nat, i: nat)
    requires i < n
    ensures Selected(Refusals(n, polls), i) <==> i / BATCH == polls / MAX_RETRIES
  {
    RefusalsPending(n, polls, i);
  }

  const REFUSING := Round(World(true, i => true, i => false, i => true), [])

  lemma RefusalsNext(n: nat, polls: nat)
    ensures Next(Refusals(n, polls), REFUSING) == Refusals(n, polls + 1)
  {
    var t := Refusals(n, polls);
    forall i: nat | i < n
      ensures Next(t, REFUSING)[i] == Refusals(n, polls + 1)[i]
    {
      RefusalsSelected(n, polls, i);
    }
  }

  lemma {:induction false} RefusalsAfter(n: nat, polls: nat, more: nat)
    ensures After(Refusals(n, polls), seq(more, i => REFUSING)) == Refusals(n, polls + more)
    decreases more
  {
    if more != 0 {
      var rounds := seq(more, i => REFUSING);
      assert rounds[1..] == seq(more - 1, i => REFUSING);
      RefusalsNext(n, polls);
      RefusalsAfter(n, polls + 1, more - 1);
    }
  }

  /** With p new rows before it and every append refused, a row is first selected by poll number
      10 * (p / 100) + 1 and no earlier. */
  lemma StarvationBoundIsReached(n: nat, p: nat, k: nat)
    requires p < n && k <= 10 * (p / 100)
    ensures Healthy(REFUSING.world) && forall i :: 0 <= i < n ==> New(Refusals(n, 0)[i])
    ensures Selected(After(Refusals(n, 0), seq(k, i => REFUSING)), p) <==> k == 10 * (p / 100)
  {
    RefusalsAfter(n, 0, k);
    RefusalsSelected(n, k, p);
  }

  /** The polls a backlog of `n` rows needs. */
  function PollsFor(n: nat): nat { 10 * ((n + 99) / 100) }

  lemma PollsForLess(n: nat, m: nat)
    requires n != 0 && m <= if n <= BATCH then 0 else n - BATCH
    ensures PollsFor(m) + MAX_RETRIES <= PollsFor(n)
  {
  }

  /** A closed backlog of n pending rows is empty after 10 * ceil(n / 100) healthy polls. */
  lemma {:induction false} BacklogDrains(t: Table, rounds: seq<Round>)
    requires AllHealthy(rounds) && forall k :: 0 <= k < |rounds| ==> rounds[k].arrivals == []
    requires PollsFor(CountPending(t)) <= |rounds|
    ensures CountPending(After(t, rounds)) == 0
    decreases CountPending(t)
  {
    if CountPending(t) == 0 {
      StaysDrained(t, rounds);
    } else {
      var first, rest := rounds[..MAX_RETRIES], rounds[MAX_RETRIES..];
      TenPollsDrain(t, first);
      PollsForLess(CountPending(t), CountPending(After(t, first)));
      BacklogDrains(After(t, first), rest);
      AfterConcat(t, first, rest);
      assert rounds == first + rest;
    }
  }

  lemma TenPollsDrain(t: Table, rounds: seq<Round>)
    requires AllHealthy(rounds) && |rounds| == MAX_RETRIES
    requires forall k :: 0 <= k < |rounds| ==> rounds[k].arrivals == []
    ensures CountPending(After(t, rounds)) <= if CountPending(t) <= BATCH then 0 else CountPending(t) - BATCH
  {
    TenPollsAdvance(t, rounds, |t|);
    ClosedKeepsLength(t, rounds);
    assert t[..|t|] == t && After(t, rounds)[..|t|] == After(t, rounds);
  }

  lemma {:induction false} ClosedKeepsLength(t: Table, rounds: seq<Round>)
    requires forall k :: 0 <= k < |rounds| ==> rounds[k].arrivals == []
    ensures |After(t, rounds)| == |t|
    decreases |rounds|
  {
    if rounds != [] {
      ClosedKeepsLength(Next(t, rounds[0]), rounds[1..]);
    }
  }

  lemma StaysDrained(t: Table, rounds: seq<Round>)
    requires CountPending(t) == 0 && forall k :: 0 <= k < |rounds| ==> rounds[k].arrivals == []
    ensures CountPending(After(t, rounds)) == 0
  {
    ClosedKeepsLength(t, rounds);
    AfterIsLater(t, rounds);
    LaterCountsLess(t, After(t, rounds), |t|);
    assert t[..|t|] == t && After(t, rounds)[..|t|] == After(t, rounds);
  }

  /** The `next_retry_at` written on failure is never read: a row whose append fails is tried again
      by the very next poll, unless that was its last retry. */
  lemma NoBackoff(t: Table, r: Round, i: nat)
    requires Selected(t, i)
    ensures var next := Next(t, r); next[i].Pending() ==> Selected(next, i)
  {
    var next := Next(t, r);
    PolledIsLater(t, r);
    LaterCountsLess(t, next, i);
  }

  // ---- Accounting ----

  predicate New(r: Row) { r == Row(false, 0, 0, 0) }

  /** What every row satisfies, whichever updates fail. */
  predicate Accounted(r: Row) {
    && (r.processed ==> 1 <= r.appended)
    && r.retries <= r.refused
    && r.retries <= 10
  }

  /** And when no update fails. */
  predicate ExactlyAccounted(r: Row) {
    r.retries == r.refused && r.appended == if r.processed then 1 else 0
  }

  ghost predicate ArrivalsNew(rounds: seq<Round>) {
    forall k :: 0 <= k < |rounds| ==> forall i :: 0 <= i < |rounds[k].arrivals| ==> New(rounds[k].arrivals[i])
  }

  /** Main result on accounting: a processed row was appended, an abandoned row was refused ten times;
      and if no update fails, no row is ever appended twice. */
  lemma {:induction false} RowsAccounted(t: Table, rounds: seq<Round>)
    requires ArrivalsNew(rounds) && forall i :: 0 <= i < |t| ==> Accounted(t[i])
    ensures forall i :: 0 <= i < |After(t, rounds)| ==> Accounted(After(t, rounds)[i])
    ensures (forall i :: 0 <= i < |t| ==> ExactlyAccounted(t[i]))
         && (forall k, j :: 0 <= k < |rounds| ==> rounds[k].world.updates(j))
        ==> forall i :: 0 <= i < |After(t, rounds)| ==> ExactlyAccounted(After(t, rounds)[i])
    decreases |rounds|
  {
    if rounds != [] {
      var next := Next(t, rounds[0]);
      RowsAccounted(next, rounds[1..]);
    }
  }
}
