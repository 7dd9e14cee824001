/** The chronological display of several timelines (display/timelinecli.go, the consuming loop of
    TimelineCLI; types/timeline.go, IterateNode and Dequeue). */
module DisplayLoop {
  import opened Options
  import opened LogTypes
  import opened MergeTimeline

  const SECOND := 1_000_000_000

  /** time.Unix(math.MaxInt32, 0), counted in nanoseconds from Go's zero time. */
  const MAX_DATE := (62_135_596_800 + 2_147_483_647) * SECOND

  /** A column of the display. */
  datatype Node = Node(identifier: string)

  type Queues = map<Node, Timeline>

  /** One line of the display: its date, and the event that each node shows. */
  datatype Row = Row(date: Option<int>, events: map<Node, LogInfo>)

  /** The nodes whose next dated event comes first. */
  ghost predicate IsNext(queues: Queues, node: Node) {
    && node in queues
    && queues[node] != []
    && FirstTime(queues[node]) <= MAX_DATE
    && forall other {:trigger FirstTime(queues[other])} ::
         other in queues && queues[other] != [] ==> FirstTime(queues[node]) <= FirstTime(queues[other])
  }

  ghost predicate NoneNext(queues: Queues) {
    forall node :: node in queues && queues[node] != [] ==> MAX_DATE < FirstTime(queues[node])
  }

  ghost predicate AllEmpty(queues: Queues) {
    forall node :: node in queues ==> queues[node] == []
  }

  /** No error log event is dated after the last date that IterateNode considers, 2^31 - 1 seconds after 1970. */
  ghost predicate AllEarly(queues: Queues) {
    forall node, i :: node in queues && 0 <= i < |queues[node]| && Dated(queues[node][i]) ==>
      queues[node][i].date.value <= 64_283_080_447_000_000_000
  }

  predicate NoRepeats(nodes: seq<Node>) {
    forall i, j :: 0 <= i < j < |nodes| ==> nodes[i] != nodes[j]
  }

  function Length(keys: seq<Node>, queues: Queues): nat {
    if keys == [] then 0 else Length(keys[1..], queues) + if keys[0] in queues then |queues[keys[0]]| else 0
  }

  predicate HaveEvents(queues: Queues, chosen: seq<Node>) {
    forall node :: node in chosen ==> node in queues && queues[node] != []
  }

  /** The queues after the chosen nodes have shown an event. */
  function Stepped(queues: Queues, chosen: seq<Node>): Queues
    requires HaveEvents(queues, chosen)
  {
    map node | node in queues :: if node in chosen then queues[node][1..] else queues[node]
  }

  function Heads(queues: Queues, chosen: seq<Node>): map<Node, LogInfo>
    requires HaveEvents(queues, chosen)
  {
    map node | node in chosen :: queues[node][0]
  }

  /** What a node has shown so far. */
  function Shown(rows: seq<Row>, node: Node): Timeline {
    if rows == [] then [] else
      var row := rows[|rows| - 1];
      Shown(rows[..|rows| - 1], node) + if node in row.events then [row.events[node]] else []
  }

  /** Each node has shown the front of its timeline, event by event, and still has the rest. */
  ghost predicate Consumed(start: Queues, rows: seq<Row>, queues: Queues) {
    && queues.Keys == start.Keys
    && forall node :: node in start ==> Shown(rows, node) + queues[node] == start[node]
  }

  predicate Sorted(l: Timeline) {
    forall i, j :: 0 <= i < j < |l| && Dated(l[i]) && Dated(l[j]) ==> l[i].date.value <= l[j].date.value
  }

  ghost predicate RowsInOrder(row: Row, later: Row) {
    forall n, m :: n in row.events && m in later.events && Dated(row.events[n]) && Dated(later.events[m]) ==>
      row.events[n].date.value <= later.events[m].date.value
  }

  /** No row shows a date before one of an earlier row. */
  ghost predicate InDateOrder(rows: seq<Row>) {
    forall i, j :: 0 <= i < j < |rows| ==> RowsInOrder(rows[i], rows[j])
  }

  ghost predicate RowOk(row: Row) {
    && row.events != map[]
    && (exists n :: n in row.events && row.date == row.events[n].date)
    && (forall n :: n in row.events && Dated(row.events[n]) ==> row.events[n].date.value <= MAX_DATE)
    && (forall n, m :: n in row.events && m in row.events && Dated(row.events[n]) && Dated(row.events[m]) ==>
          row.events[n].date == row.events[m].date)
  }

  ghost predicate Columns(queues: Queues, keys: seq<Node>) {
    forall node :: node in queues <==> node in keys
  }

  /** The column of `node` when the columns `done` are. */
  ghost predicate CellShown(before: Queues, queues: Queues, nextNodes: seq<Node>, done: seq<Node>, row: Row, node: Node)
    requires node in before
  {
    && node in queues
    && (if node in done && node in nextNodes
        then before[node] != [] && queues[node] == before[node][1..] && node in row.events
          && row.events[node] == before[node][0]
        else queues[node] == before[node] && node !in row.events)
  }

  ghost predicate CellsShown(before: Queues, queues: Queues, nextNodes: seq<Node>, done: seq<Node>, row: Row) {
    && queues.Keys == before.Keys
    && row.events.Keys <= before.Keys
    && forall node {:trigger CellShown(before, queues, nextNodes, done, row, node)} :: node in before ==>
         CellShown(before, queues, nextNodes, done, row, node)
  }

  lemma NextCell(before: Queues, queues: Queues, nextNodes: seq<Node>, done: seq<Node>, row: Row, node: Node,
                 queues': Queues, row': Row)
    requires CellsShown(before, queues, nextNodes, done, row) && HaveEvents(before, nextNodes)
    requires node in before && node !in done
    requires if node in nextNodes
             then before[node] != [] && queues' == queues[node := before[node][1..]]
               && row'.events == row.events[node := before[node][0]]
             else queues' == queues && row' == row
    ensures CellsShown(before, queues', nextNodes, done + [node], row')
  {
    forall other | other in before
      ensures CellShown(before, queues', nextNodes, done + [node], row', other)
    {
      assert CellShown(before, queues, nextNodes, done, row, other);
    }
  }

  lemma RowDone(before: Queues, queues: Queues, nextNodes: seq<Node>, keys: seq<Node>, row: Row)
    requires Columns(before, keys) && HaveEvents(before, nextNodes)
    requires CellsShown(before, queues, nextNodes, keys, row)
    ensures queues == Stepped(before, nextNodes) && row.events == Heads(before, nextNodes)
  {
    forall node | node in before
      ensures queues[node] == Stepped(before, nextNodes)[node]
      ensures node in row.events <==> node in nextNodes
      ensures node in nextNodes ==> row.events[node] == before[node][0]
    {
      assert CellShown(before, queues, nextNodes, keys, row, node);
    }
  }

  ghost predicate AllSorted(queues: Queues) {
    forall node :: node in queues ==> Sorted(queues[node])
  }

  ghost predicate RowBefore(row: Row, queues: Queues) {
    forall n, node, k :: n in row.events && Dated(row.events[n]) && node in queues && 0 <= k < |queues[node]|
                         && Dated(queues[node][k]) ==>
                         row.events[n].date.value <= queues[node][k].date.value
  }

  /** Nothing that is still to come is dated before something that was shown. */
  ghost predicate Before(rows: seq<Row>, queues: Queues) {
    forall i :: 0 <= i < |rows| ==> RowBefore(rows[i], queues)
  }

  /** What the nodes have not shown yet. */
  function Rest(start: Queues, rows: seq<Row>): Queues {
    map node | node in start ::
      if |Shown(rows, node)| <= |start[node]| then start[node][|Shown(rows, node)|..] else []
  }

  /** The row has an event of every node that is next, and of no other. */
  ghost predicate ShowsNext(queues: Queues, row: Row) {
    forall node {:trigger IsNext(queues, node)} :: node in row.events <==> IsNext(queues, node)
  }

  /** Every row shows exactly the nodes that were next when all rows before it were shown. */
  ghost predicate AllShowNext(start: Queues, rows: seq<Row>) {
    forall i :: 0 <= i < |rows| ==> ShowsNext(Rest(start, rows[..i]), rows[i])
  }

  /** Every event has a date, and no node has two at the same time. */
  ghost predicate AllStrict(queues: Queues) {
    forall node :: node in queues ==> ErrorLog(queues[node])
  }

  ghost predicate RowStrictlyBefore(row: Row, queues: Queues) {
    forall n, node, k :: n in row.events && Dated(row.events[n]) && node in queues && 0 <= k < |queues[node]|
                         && Dated(queues[node][k]) ==>
                         row.events[n].date.value < queues[node][k].date.value
  }

  ghost predicate RowsStrictlyInOrder(row: Row, later: Row) {
    forall n, m :: n in row.events && m in later.events && Dated(row.events[n]) && Dated(later.events[m]) ==>
      row.events[n].date.value < later.events[m].date.value
  }

  /** Every event shown is dated before all events of later rows, and before all that is still to come. */
  ghost predicate StrictlyInOrder(rows: seq<Row>, queues: Queues) {
    && (forall i, j :: 0 <= i < j < |rows| ==> RowsStrictlyInOrder(rows[i], rows[j]))
    && (forall i :: 0 <= i < |rows| ==> RowStrictlyBefore(rows[i], queues))
    && (forall i, n :: 0 <= i < |rows| && n in rows[i].events ==> Dated(rows[i].events[n]))
  }

  /** What holds of the rows shown and of the events still queued. */
  ghost predicate Displaying(start: Queues, rows: seq<Row>, queues: Queues) {
    && Consumed(start, rows, queues)
    && (forall i :: 0 <= i < |rows| ==> RowOk(rows[i]))
    && AllShowNext(start, rows)
    && (AllSorted(start) ==> AllSorted(queues) && InDateOrder(rows) && Before(rows, queues))
    && (AllStrict(start) ==> AllStrict(queues) && StrictlyInOrder(rows, queues))
  }

  ghost predicate AreNext(queues: Queues, chosen: seq<Node>) {
    && chosen != []
    && HaveEvents(queues, chosen)
    && forall node {:trigger IsNext(queues, node)} :: node in chosen <==> IsNext(queues, node)
  }

  lemma RowOfHeads(queues: Queues, chosen: seq<Node>, row: Row)
    requires AreNext(queues, chosen)
    requires row.date == queues[chosen[0]][0].date && row.events == Heads(queues, chosen)
    ensures RowOk(row)
  {
    assert chosen[0] in row.events;
    forall n | n in row.events
      ensures IsNext(queues, n) && (Dated(row.events[n]) ==> row.events[n].date.value == FirstTime(queues[chosen[0]]))
    {
      assert IsNext(queues, n) && IsNext(queues, chosen[0]);
    }
  }

  lemma StepConsumesAt(timeline: Timeline, rows: seq<Row>, queues: Queues, chosen: seq<Node>, row: Row, node: Node)
    requires HaveEvents(queues, chosen) && row.events == Heads(queues, chosen)
    requires node in queues && Shown(rows, node) + queues[node] == timeline
    ensures Shown(rows + [row], node) + Stepped(queues, chosen)[node] == timeline
  {
    var shown := Shown(rows, node);
    assert (rows + [row])[..|rows|] == rows;
    if node in chosen {
      assert (shown + [queues[node][0]]) + queues[node][1..] == shown + queues[node];
    } else {
      assert shown + [] == shown;
    }
  }

  lemma StepConsumes(start: Queues, rows: seq<Row>, queues: Queues, chosen: seq<Node>, row: Row)
    requires AreNext(queues, chosen) && Consumed(start, rows, queues)
    requires row.events == Heads(queues, chosen)
    ensures Consumed(start, rows + [row], Stepped(queues, chosen))
  {
    forall node | node in start
      ensures Shown(rows + [row], node) + Stepped(queues, chosen)[node] == start[node]
    {
      StepConsumesAt(start[node], rows, queues, chosen, row, node);
    }
  }

  /** In a sorted timeline no dated event is before its first time. */
  lemma {:induction false} FirstTimeIsLeast(l: Timeline, k: nat)
    requires Sorted(l) && k < |l| && Dated(l[k])
    ensures FirstTime(l) <= l[k].date.value
  {
    if Dated(l[0]) {
    } else {
      FirstTimeIsLeast(l[1..], k - 1);
    }
  }

  lemma StepInOrder(rows: seq<Row>, queues: Queues, chosen: seq<Node>, row: Row)
    requires AreNext(queues, chosen) && row.events == Heads(queues, chosen)
    requires AllSorted(queues) && InDateOrder(rows) && Before(rows, queues)
    ensures AllSorted(Stepped(queues, chosen))
    ensures InDateOrder(rows + [row]) && Before(rows + [row], Stepped(queues, chosen))
  {
    var queues' := Stepped(queues, chosen);
    assert RowBefore(row, queues') by {
      forall n, node, k | n in row.events && Dated(row.events[n]) && node in queues' && 0 <= k < |queues'[node]|
                          && Dated(queues'[node][k])
        ensures row.events[n].date.value <= queues'[node][k].date.value
      {
        assert IsNext(queues, n);
        FirstTimeIsLeast(queues[node], if node in chosen then k + 1 else k);
      }
    }
    forall i | 0 <= i < |rows|
      ensures RowBefore(rows[i], queues') && RowsInOrder(rows[i], row)
    {
      assert RowBefore(rows[i], queues);
    }
  }

  /** What is not next is dated after what is. */
  lemma NextIsStrictlyFirst(queues: Queues, n: Node, node: Node, k: nat)
    requires AllStrict(queues) && IsNext(queues, n) && node in queues && k < |queues[node]|
    requires IsNext(queues, node) ==> 0 < k
    ensures FirstTime(queues[n]) == queues[n][0].date.value < queues[node][k].date.value
  {
    assert Dated(queues[n][0]) && Dated(queues[node][0]) && Dated(queues[node][k]);
    if IsNext(queues, node) {
      assert queues[node][0].date.value < queues[node][k].date.value;
    }
  }

  lemma StepStrictly(rows: seq<Row>, queues: Queues, chosen: seq<Node>, row: Row)
    requires AreNext(queues, chosen) && row.events == Heads(queues, chosen)
    requires AllStrict(queues) && StrictlyInOrder(rows, queues)
    ensures AllStrict(Stepped(queues, chosen)) && StrictlyInOrder(rows + [row], Stepped(queues, chosen))
  {
    var queues' := Stepped(queues, chosen);
    assert RowStrictlyBefore(row, queues') by {
      forall n, node, k | n in row.events && node in queues' && 0 <= k < |queues'[node]|
        ensures row.events[n].date.Some? && queues'[node][k].date.Some?
        ensures row.events[n].date.value < queues'[node][k].date.value
      {
        assert IsNext(queues, n);
        NextIsStrictlyFirst(queues, n, node, if node in chosen then k + 1 else k);
      }
    }
    forall i | 0 <= i < |rows|
      ensures RowStrictlyBefore(rows[i], queues') && RowsStrictlyInOrder(rows[i], row)
    {
      assert RowStrictlyBefore(rows[i], queues);
    }
  }

  lemma RestIsQueued(start: Queues, rows: seq<Row>, queues: Queues)
    requires Consumed(start, rows, queues)
    ensures Rest(start, rows) == queues
  {
  }

  lemma StepShowsNext(start: Queues, rows: seq<Row>, queues: Queues, chosen: seq<Node>, row: Row)
    requires Consumed(start, rows, queues) && AllShowNext(start, rows)
    requires AreNext(queues, chosen) && row.events == Heads(queues, chosen)
    ensures AllShowNext(start, rows + [row])
  {
    RestIsQueued(start, rows, queues);
    var all := rows + [row];
    forall i | 0 <= i < |all|
      ensures ShowsNext(Rest(start, all[..i]), all[i])
    {
      if i < |rows| {
        assert all[..i] == rows[..i];
      } else {
        assert all[..i] == rows;
      }
    }
  }

  lemma Step(start: Queues, rows: seq<Row>, queues: Queues, chosen: seq<Node>, row: Row)
    requires Displaying(start, rows, queues) && AreNext(queues, chosen)
    requires row.date == queues[chosen[0]][0].date && row.events == Heads(queues, chosen)
    ensures Displaying(start, rows + [row], Stepped(queues, chosen))
  {
    RowOfHeads(queues, chosen, row);
    StepConsumes(start, rows, queues, chosen, row);
    StepShowsNext(start, rows, queues, chosen, row);
    if AllSorted(start) {
      StepInOrder(rows, queues, chosen, row);
    }
    if AllStrict(start) {
      StepStrictly(rows, queues, chosen, row);
    }
  }

  lemma {:induction false} StepShortens(keys: seq<Node>, queues: Queues, chosen: seq<Node>)
    requires AreNext(queues, chosen)
    ensures Length(keys, Stepped(queues, chosen)) <= Length(keys, queues)
    ensures (exists node :: node in chosen && node in keys) ==>
              Length(keys, Stepped(queues, chosen)) < Length(keys, queues)
  {
    if keys == [] {
    } else {
      StepShortens(keys[1..], queues, chosen);
    }
  }

  lemma {:induction false} FirstTimeIsSomeTime(l: Timeline)
    ensures FirstTime(l) == 0 || exists k :: 0 <= k < |l| && Dated(l[k]) && l[k].date.value == FirstTime(l)
  {
    if l == [] || Dated(l[0]) {
    } else {
      FirstTimeIsSomeTime(l[1..]);
      if k :| 0 <= k < |l[1..]| && Dated(l[1..][k]) && l[1..][k].date.value == FirstTime(l[1..]) {
        assert l[k + 1] == l[1..][k];
      }
    }
  }

  lemma {:induction false} ShownInRows(rows: seq<Row>, node: Node, i: nat)
    requires i < |Shown(rows, node)|
    ensures exists r :: 0 <= r < |rows| && node in rows[r].events && rows[r].events[node] == Shown(rows, node)[i]
  {
    var front := rows[..|rows| - 1];
    if i < |Shown(front, node)| {
      ShownInRows(front, node, i);
      var r :| 0 <= r < |front| && node in front[r].events && front[r].events[node] == Shown(front, node)[i];
      assert rows[r] == front[r];
    } else {
      assert node in rows[|rows| - 1].events;
    }
  }

  lemma DrainedIfEarly(start: Queues, rows: seq<Row>, queues: Queues)
    requires Consumed(start, rows, queues) && forall i :: 0 <= i < |rows| ==> RowOk(rows[i])
    requires NoneNext(queues)
    ensures AllEmpty(queues) <==> AllEarly(start)
  {
    if AllEmpty(queues) {
      forall node, i | node in start && 0 <= i < |start[node]| && Dated(start[node][i])
        ensures start[node][i].date.value <= MAX_DATE
      {
        assert Shown(rows, node) == start[node];
        ShownInRows(rows, node, i);
        var r :| 0 <= r < |rows| && node in rows[r].events && rows[r].events[node] == start[node][i];
        assert RowOk(rows[r]);
      }
    }
    if node :| node in queues && queues[node] != [] {
      FirstTimeIsSomeTime(queues[node]);
      var k :| 0 <= k < |queues[node]| && Dated(queues[node][k])
        && queues[node][k].date.value == FirstTime(queues[node]);
      assert start[node][|Shown(rows, node)| + k] == queues[node][k];
    }
  }

  /** Every row has a date, and no two have the same. */
  ghost predicate DatesIncrease(rows: seq<Row>) {
    && (forall i :: 0 <= i < |rows| ==> rows[i].date.Some?)
    && (forall i, j :: 0 <= i < j < |rows| ==> rows[i].date.value < rows[j].date.value)
  }

  lemma StrictDatesIncrease(rows: seq<Row>, queues: Queues)
    requires StrictlyInOrder(rows, queues) && forall i :: 0 <= i < |rows| ==> RowOk(rows[i])
    ensures DatesIncrease(rows)
  {
    forall i | 0 <= i < |rows|
      ensures exists n :: n in rows[i].events && rows[i].date == rows[i].events[n].date && Dated(rows[i].events[n])
    {
      assert RowOk(rows[i]);
    }
    forall i, j | 0 <= i < j < |rows|
      ensures rows[i].date.value < rows[j].date.value
    {
      assert RowsStrictlyInOrder(rows[i], rows[j]);
    }
  }

  class Timelines {
    var queues: Queues

    /** The nodes that hold the next events, in the arbitrary order in which the map is iterated. */
    method IterateNode() returns (nextNodes: seq<Node>)
      ensures NoRepeats(nextNodes)
      ensures forall node {:trigger IsNext(queues, node)} :: IsNext(queues, node) <==> node in nextNodes
      ensures HaveEvents(queues, nextNodes)
      ensures nextNodes == [] ==> NoneNext(queues)
    {
      var nextDate := MAX_DATE;
      nextNodes := [];
      var todo := queues.Keys;
      ghost var done: set<Node> := {};
      while todo != {}
        invariant todo + done == queues.Keys && todo !! done
        invariant NoRepeats(nextNodes) && nextDate <= MAX_DATE
        invariant forall node :: node in nextNodes <==>
                    node in done && queues[node] != [] && FirstTime(queues[node]) == nextDate
        invariant forall node :: node in done && queues[node] != [] ==>
                    nextDate <= FirstTime(queues[node]) || nextNodes == []
        invariant nextNodes == [] ==> nextDate == MAX_DATE
        invariant nextNodes == [] ==>
                    forall node :: node in done && queues[node] != [] ==> MAX_DATE < FirstTime(queues[node])
      {
        var node :| node in todo;
        if queues[node] != [] {
          var curDate := FirstTime(queues[node]);
          if curDate < nextDate {
            nextDate := curDate;
            nextNodes := [node];
          } else if curDate == nextDate {
            nextNodes := nextNodes + [node];
          }
        }
        todo, done := todo - {node}, done + {node};
      }
      assert nextNodes != [] ==> nextNodes[0] in nextNodes;
      assert forall node :: node in nextNodes ==> IsNext(queues, node);
    }

    method Dequeue(node: Node)
      requires node in queues
      modifies this
      ensures queues == old(queues)[node := if old(queues)[node] == [] then [] else old(queues)[node][1..]]
    {
      if 0 < |queues[node]| {
        queues := queues[node := queues[node][1..]];
      }
    }

    /** The inner loop: the columns of one row. */
    method ShowRow(keys: seq<Node>, nextNodes: seq<Node>) returns (row: Row)
      requires NoRepeats(keys) && Columns(queues, keys) && nextNodes != [] && HaveEvents(queues, nextNodes)
      modifies this
      ensures queues == Stepped(old(queues), nextNodes)
      ensures row.date == old(queues)[nextNodes[0]][0].date && row.events == Heads(old(queues), nextNodes)
    {
      row := Row(queues[nextNodes[0]][0].date, map[]);
      ghost var before := queues;
      assert forall node :: node in before ==> CellShown(before, queues, nextNodes, [], row, node);
      for k := 0 to |keys|
        invariant row.date == old(queues)[nextNodes[0]][0].date
        invariant CellsShown(before, queues, nextNodes, keys[..k], row)
      {
        var node := keys[k];
        ghost var prev, prevRow := queues, row;
        assert CellShown(before, queues, nextNodes, keys[..k], row, node);
        if node in nextNodes {
          row := row.(events := row.events[node := queues[node][0]]);
          Dequeue(node);
        }
        NextCell(before, prev, nextNodes, keys[..k], prevRow, node, queues, row);
        assert keys[..k + 1] == keys[..k] + [node];
      }
      assert keys[..|keys|] == keys;
      RowDone(before, queues, nextNodes, keys, row);
    }

    /** Shows every timeline.  All events of a node are shown in order and none twice; every
        timeline is emptied exactly if no error log event is dated after the last date that
        IterateNode considers.  Every row shows exactly the nodes that are next.  If each timeline is
        sorted, then the display is chronological; if its dates strictly increase, then so do those of
        the rows. */
    method TimelineCLI(keys: seq<Node>) returns (rows: seq<Row>)
      requires NoRepeats(keys) && Columns(queues, keys)
      modifies this
      ensures Consumed(old(queues), rows, queues)
      ensures forall i :: 0 <= i < |rows| ==> RowOk(rows[i])
      ensures AllEmpty(queues) <==> AllEarly(old(queues))
      ensures AllShowNext(old(queues), rows)
      ensures AllSorted(old(queues)) ==> InDateOrder(rows)
      ensures AllStrict(old(queues)) ==> DatesIncrease(rows)
    {
      rows := [];
      var nextNodes := IterateNode();
      while |nextNodes| != 0
        invariant Columns(queues, keys) && Displaying(old(queues), rows, queues)
        invariant nextNodes != [] ==> AreNext(queues, nextNodes)
        invariant nextNodes == [] ==> NoneNext(queues)
        decreases Length(keys, queues)
      {
        ghost var before := queues;
        var row := ShowRow(keys, nextNodes);
        Step(old(queues), rows, before, nextNodes, row);
        StepShortens(keys, before, nextNodes);
        rows := rows + [row];
        nextNodes := IterateNode();
      }
      DrainedIfEarly(old(queues), rows, queues);
      if AllStrict(old(queues)) {
        StrictDatesIncrease(rows, queues);
      }
    }
  }

  /** The date column never goes back: when only error logs are shown, the dates that the rows
      show do not decrease, however many events have no date. */
  lemma ShownDatesDoNotDecrease(rows: seq<Row>)
    requires InDateOrder(rows) && forall i :: 0 <= i < |rows| ==> RowOk(rows[i])
    requires forall i, n :: 0 <= i < |rows| && n in rows[i].events && rows[i].events[n].date.Some? ==>
               Dated(rows[i].events[n])
    ensures forall i, j :: 0 <= i < j < |rows| && rows[i].date.Some? && rows[j].date.Some? ==>
                           rows[i].date.value <= rows[j].date.value
  {
    forall i, j | 0 <= i < j < |rows| && rows[i].date.Some? && rows[j].date.Some?
      ensures rows[i].date.value <= rows[j].date.value
    {
      assert RowOk(rows[i]) && RowOk(rows[j]) && RowsInOrder(rows[i], rows[j]);
      var n :| n in rows[i].events && rows[i].date == rows[i].events[n].date;
      var m :| m in rows[j].events && rows[j].date == rows[j].events[m].date;
      assert Dated(rows[i].events[n]) && Dated(rows[j].events[m]);
    }
  }
}
