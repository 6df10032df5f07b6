/**
 * The ticket table as both panels see it, and the two updates they issue against it: the
 * staff's "attend now", conditioned on the ticket still waiting, and the customer's cancel,
 * keyed on code and phone only. Also the order of the staff panel's waiting list.
 */
module Tickets {
  import opened Wrappers

  /** The `estado` column: 'En espera', 'En atención', 'Atendido', 'Cancelado'. */
  datatype State = Waiting | InService | Served | Cancelled

  /** One row of the ticket table (`turno`, `nombre`, `telefono`, `servicio`, `estado`,
      `orden`, `created_at`, `started_at`, `fecha`); timestamps are milliseconds. */
  datatype Ticket = Ticket(
    id: int,
    code: string,
    name: string,
    phone: string,
    service: string,
    state: State,
    order: int,
    createdAt: int,
    startedAt: Option<int>,
    date: string)

  predicate UniqueIds(rows: seq<Ticket>)
  {
    forall i, j :: 0 <= i < j < |rows| ==> rows[i].id != rows[j].id
  }

  /** Every ticket in service carries the instant its service started. */
  predicate StartedWhenInService(rows: seq<Ticket>)
  {
    forall i :: 0 <= i < |rows| && rows[i].state == InService ==> rows[i].startedAt.Some?
  }

  // ---------------------------------------------------------------------------------------
  // Attending a ticket: the row with the given id moves from Waiting to InService and
  // records the instant service started, but only while it is still Waiting.

  /** The filter of the conditioned update. */
  predicate AttendMatches(t: Ticket, id: int)
  {
    t.id == id && t.state == Waiting
  }

  /** The ticket table after the conditioned "attend now" update for ticket id at instant now. */
  function AttendRows(rows: seq<Ticket>, id: int, now: int): (r: seq<Ticket>)
    ensures |r| == |rows|
  {
    if rows == [] then []
    else
      var t := rows[0];
      [if AttendMatches(t, id) then t.(state := InService, startedAt := Some(now)) else t]
        + AttendRows(rows[1..], id, now)
  }

  /** The number of rows the conditioned update changes. */
  function Affected(rows: seq<Ticket>, id: int): nat
  {
    if rows == [] then 0
    else (if AttendMatches(rows[0], id) then 1 else 0) + Affected(rows[1..], id)
  }

  /** Row by row: the ticket with this id that is waiting moves to service and gets its start
      instant, and nothing else of it changes; every other row, including a ticket with this
      id in any other state, is left exactly as it was. */
  lemma {:induction false} AttendRowEffect(rows: seq<Ticket>, id: int, now: int, i: int)
    requires 0 <= i < |rows|
    ensures AttendMatches(rows[i], id) ==>
      AttendRows(rows, id, now)[i] == rows[i].(state := InService, startedAt := Some(now))
    ensures !AttendMatches(rows[i], id) ==> AttendRows(rows, id, now)[i] == rows[i]
  {
    if i > 0 {
      AttendRowEffect(rows[1..], id, now, i - 1);
    }
  }

  /** When no row matches, the update is a no-op. */
  lemma {:induction false} AttendWithoutMatchIsNoOp(rows: seq<Ticket>, id: int, now: int)
    requires Affected(rows, id) == 0
    ensures AttendRows(rows, id, now) == rows
  {
    if rows != [] {
      AttendWithoutMatchIsNoOp(rows[1..], id, now);
    }
  }

  /** After the update no row matches its filter any more. */
  lemma {:induction false} AttendLeavesNoMatch(rows: seq<Ticket>, id: int, now: int)
    ensures Affected(AttendRows(rows, id, now), id) == 0
  {
    if rows != [] {
      AttendLeavesNoMatch(rows[1..], id, now);
      var r := AttendRows(rows, id, now);
      assert r[1..] == AttendRows(rows[1..], id, now);
    }
  }

  /** A second "attend now" on the same ticket changes nothing, whatever its instant. */
  lemma SecondAttendIsNoOp(rows: seq<Ticket>, id: int, first: int, second: int)
    ensures Affected(AttendRows(rows, id, first), id) == 0
    ensures AttendRows(AttendRows(rows, id, first), id, second) == AttendRows(rows, id, first)
  {
    AttendLeavesNoMatch(rows, id, first);
    AttendWithoutMatchIsNoOp(AttendRows(rows, id, first), id, second);
  }

  lemma {:induction false} NoIdNoMatch(rows: seq<Ticket>, id: int)
    requires forall j :: 0 <= j < |rows| ==> rows[j].id != id
    ensures Affected(rows, id) == 0
  {
    if rows != [] {
      NoIdNoMatch(rows[1..], id);
    }
  }

  /** With unique ids the update changes at most one row, and exactly one when a waiting
      ticket has this id. */
  lemma {:induction false} AttendAffectsAtMostOne(rows: seq<Ticket>, id: int)
    requires UniqueIds(rows)
    ensures Affected(rows, id) <= 1
    ensures (exists i :: 0 <= i < |rows| && AttendMatches(rows[i], id)) ==> Affected(rows, id) == 1
  {
    if rows != [] {
      AttendAffectsAtMostOne(rows[1..], id);
      if AttendMatches(rows[0], id) {
        NoIdNoMatch(rows[1..], id);
      } else if exists i :: 0 <= i < |rows| && AttendMatches(rows[i], id) {
        var i :| 0 <= i < |rows| && AttendMatches(rows[i], id);
        assert AttendMatches(rows[1..][i - 1], id);
      }
    }
  }

  /** Several staff terminals attending the same ticket, one update after the other. */
  function AttendAll(rows: seq<Ticket>, id: int, instants: seq<int>): seq<Ticket>
    decreases instants
  {
    if instants == [] then rows else AttendAll(AttendRows(rows, id, instants[0]), id, instants[1..])
  }

  /** The number of rows each of those updates changed, summed. */
  function AttendSuccesses(rows: seq<Ticket>, id: int, instants: seq<int>): nat
    decreases instants
  {
    if instants == [] then 0
    else Affected(rows, id) + AttendSuccesses(AttendRows(rows, id, instants[0]), id, instants[1..])
  }

  /** Duplicate attempts: the first one decides the outcome and the rest are no-ops, so with
      unique ids and the ticket waiting exactly one attempt succeeds. */
  lemma {:induction false} FirstAttendWins(rows: seq<Ticket>, id: int, instants: seq<int>)
    requires instants != []
    ensures AttendAll(rows, id, instants) == AttendRows(rows, id, instants[0])
    ensures AttendSuccesses(rows, id, instants) == Affected(rows, id)
    ensures UniqueIds(rows) && (exists i :: 0 <= i < |rows| && AttendMatches(rows[i], id)) ==>
      AttendSuccesses(rows, id, instants) == 1
  {
    var after := AttendRows(rows, id, instants[0]);
    AttendLeavesNoMatch(rows, id, instants[0]);
    LaterAttendsChangeNothing(after, id, instants[1..]);
    if UniqueIds(rows) {
      AttendAffectsAtMostOne(rows, id);
    }
  }

  lemma {:induction false} LaterAttendsChangeNothing(rows: seq<Ticket>, id: int, instants: seq<int>)
    requires Affected(rows, id) == 0
    decreases instants
    ensures AttendAll(rows, id, instants) == rows
    ensures AttendSuccesses(rows, id, instants) == 0
  {
    if instants != [] {
      AttendWithoutMatchIsNoOp(rows, id, instants[0]);
      LaterAttendsChangeNothing(rows, id, instants[1..]);
    }
  }

  /** Attending keeps every ticket in service stamped with its start instant. */
  lemma AttendKeepsStartStamps(rows: seq<Ticket>, id: int, now: int)
    requires StartedWhenInService(rows)
    ensures StartedWhenInService(AttendRows(rows, id, now))
  {
    forall i | 0 <= i < |rows| {
      AttendRowEffect(rows, id, now, i);
    }
  }

  // ---------------------------------------------------------------------------------------
  // A customer's cancel: every row with the given code and phone becomes Cancelled,
  // whatever its state or date.

  /** The filter of the cancel update; a missing phone matches no row. */
  predicate CancelMatches(t: Ticket, code: string, phone: Option<string>)
  {
    t.code == code && phone == Some(t.phone)
  }

  /** The ticket table after the customer's cancel of code with their stored phone. */
  function CancelRows(rows: seq<Ticket>, code: string, phone: Option<string>): (r: seq<Ticket>)
    ensures |r| == |rows|
  {
    if rows == [] then []
    else
      var t := rows[0];
      [if CancelMatches(t, code, phone) then t.(state := Cancelled) else t]
        + CancelRows(rows[1..], code, phone)
  }

  /** Row by row: every ticket with this code and phone becomes cancelled, whatever its state
      and its date, and nothing else of it changes; all other rows stay as they were. */
  lemma {:induction false} CancelRowEffect(rows: seq<Ticket>, code: string, phone: Option<string>, i: int)
    requires 0 <= i < |rows|
    ensures CancelMatches(rows[i], code, phone) ==>
      CancelRows(rows, code, phone)[i] == rows[i].(state := Cancelled)
    ensures !CancelMatches(rows[i], code, phone) ==> CancelRows(rows, code, phone)[i] == rows[i]
  {
    if i > 0 {
      CancelRowEffect(rows[1..], code, phone, i - 1);
    }
  }

  /** The update is not conditioned on the state: a ticket already served on an earlier day
      that shares code and phone with today's waiting ticket is cancelled along with it. */
  lemma CancelIsBlind(code: string, phone: string, earlier: Ticket, today: Ticket)
    requires earlier.code == code && earlier.phone == phone && earlier.state == Served
    requires today.code == code && today.phone == phone && today.state == Waiting
    ensures CancelRows([earlier, today], code, Some(phone))
      == [earlier.(state := Cancelled), today.(state := Cancelled)]
  {
    CancelRowEffect([earlier, today], code, Some(phone), 0);
    CancelRowEffect([earlier, today], code, Some(phone), 1);
  }

  /** Without a stored phone the cancel changes nothing. */
  lemma {:induction false} CancelWithoutPhoneIsNoOp(rows: seq<Ticket>, code: string)
    ensures CancelRows(rows, code, None) == rows
  {
    if rows != [] {
      CancelWithoutPhoneIsNoOp(rows[1..], code);
    }
  }

  // ---------------------------------------------------------------------------------------
  // The staff panel's waiting list: today's Waiting rows, ordered by their manual order
  // and then by creation instant.

  /** a may stand ahead of b: lower `orden`, or equal `orden` and not created later. */
  predicate QueueLeq(a: Ticket, b: Ticket)
  {
    a.order < b.order || (a.order == b.order && a.createdAt <= b.createdAt)
  }

  predicate QueueSorted(s: seq<Ticket>)
  {
    forall i, j :: 0 <= i < j < |s| ==> QueueLeq(s[i], s[j])
  }

  function InsertInQueue(t: Ticket, s: seq<Ticket>): (r: seq<Ticket>)
    requires QueueSorted(s)
    ensures QueueSorted(r) && multiset(r) == multiset(s) + multiset{t}
  {
    if s == [] then [t]
    else if QueueLeq(t, s[0]) then [t] + s
    else
      var rest := InsertInQueue(t, s[1..]);
      assert s == [s[0]] + s[1..];
      HeadStaysAhead(t, s, rest);
      [s[0]] + rest
  }

  /** When t goes after the head of a sorted list, the head stands ahead of every element
      of the tail with t inserted. */
  lemma HeadStaysAhead(t: Ticket, s: seq<Ticket>, rest: seq<Ticket>)
    requires QueueSorted(s) && s != [] && !QueueLeq(t, s[0])
    requires multiset(rest) == multiset(s[1..]) + multiset{t}
    ensures forall j :: 0 <= j < |rest| ==> QueueLeq(s[0], rest[j])
  {
    forall j | 0 <= j < |rest| ensures QueueLeq(s[0], rest[j]) {
      var x := rest[j];
      assert x in multiset(rest);
      if x != t {
        assert x in multiset(s[1..]);
        var k :| 0 <= k < |s[1..]| && s[1..][k] == x;
        assert s[k + 1] == x;
      }
    }
  }

  function SortQueue(s: seq<Ticket>): (r: seq<Ticket>)
    ensures QueueSorted(r) && multiset(r) == multiset(s)
  {
    if s == [] then []
    else
      assert s == [s[0]] + s[1..];
      InsertInQueue(s[0], SortQueue(s[1..]))
  }

  /** The rows the waiting-list query selects, in table order. */
  function WaitingOn(rows: seq<Ticket>, today: string): (w: seq<Ticket>)
    ensures |w| <= |rows|
    ensures forall i :: 0 <= i < |w| ==> w[i].state == Waiting && w[i].date == today
  {
    if rows == [] then []
    else
      (if rows[0].state == Waiting && rows[0].date == today then [rows[0]] else [])
        + WaitingOn(rows[1..], today)
  }

  lemma {:induction false} WaitingOnMembers(rows: seq<Ticket>, today: string)
    ensures forall t :: t in multiset(WaitingOn(rows, today)) <==>
      t in rows && t.state == Waiting && t.date == today
  {
    if rows != [] {
      WaitingOnMembers(rows[1..], today);
      assert rows == [rows[0]] + rows[1..];
    }
  }

  /** The waiting list of the staff panel for the given day. */
  function WaitingQueue(rows: seq<Ticket>, today: string): (q: seq<Ticket>)
    ensures QueueSorted(q) && multiset(q) == multiset(WaitingOn(rows, today))
  {
    SortQueue(WaitingOn(rows, today))
  }

  /** Each of today's waiting tickets is selected as often as it occurs in the table, and
      no other ticket is selected. */
  lemma {:induction false} WaitingOnCounts(rows: seq<Ticket>, today: string)
    ensures forall t ::
      multiset(WaitingOn(rows, today))[t] == (if t.state == Waiting && t.date == today then multiset(rows)[t] else 0)
  {
    if rows != [] {
      WaitingOnCounts(rows[1..], today);
      assert rows == [rows[0]] + rows[1..];
    }
  }

  /** The waiting list holds exactly today's waiting tickets, each as often as in the table,
      ordered by `orden` and then by creation instant. */
  lemma WaitingQueueIsOrderedSelection(rows: seq<Ticket>, today: string)
    ensures QueueSorted(WaitingQueue(rows, today))
    ensures multiset(WaitingQueue(rows, today)) == multiset(WaitingOn(rows, today))
    ensures forall t ::
      multiset(WaitingQueue(rows, today))[t] == (if t.state == Waiting && t.date == today then multiset(rows)[t] else 0)
    ensures forall t :: t in WaitingQueue(rows, today) <==>
      t in rows && t.state == Waiting && t.date == today
  {
    WaitingOnMembers(rows, today);
    WaitingOnCounts(rows, today);
    var q := WaitingQueue(rows, today);
    assert forall t :: t in q <==> t in multiset(q);
  }
}
