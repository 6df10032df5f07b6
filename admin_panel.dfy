/**
 * The staff panel's state: the business configuration (replaced whole when the stored row
 * loads), the service catalog, the ticket next in line, and the
 * single pending refresh timer that coalesces bursts of change notifications.
 */
module AdminPanel {
  import opened Wrappers
  import opened Catalog
  import opened Tickets
  import opened OperatingDay

  /** The staff panel's business configuration. The operating days hold whatever the stored
      row holds (the customer panel reads them as weekday names); the staff panel does not
      interpret them. */
  datatype AdminConfig = AdminConfig(openAt: string, closeAt: string, dailyLimit: int, operatingDays: OperatingDays)

  /** 08:00 to 23:00, 50 tickets a day, and Monday to Saturday as weekday numbers, 0 being
      Sunday. */
  const DefaultAdminConfig: AdminConfig := AdminConfig("08:00", "23:00", 50, Numbers([1, 2, 3, 4, 5, 6]))

  /** The configuration query: it failed, or returned the business's row or nothing. */
  datatype AdminConfigQuery = AdminConfigFailed(message: string) | AdminConfigLoaded(data: Option<AdminConfig>)

  /** The two list queries of a reload (in service, waiting): both answered, or at least one
      failed. When answered, `rows` is the ticket table they were run against. */
  datatype TicketsQuery = TicketsFailed | TicketsLoaded(rows: seq<Ticket>)

  /** What the panel tells the operator after "attend now". */
  datatype Notice = NoTicketWaiting | AttendFailed(message: string) | Attending(code: string)

  const MsPerMinute: int := 60000

  /** The minute counters: whole minutes elapsed from startMs to nowMs, rounded down, and 0
      for a start in the future. */
  function ElapsedMinutes(nowMs: int, startMs: int): (minutes: nat)
    ensures startMs <= nowMs ==> minutes * MsPerMinute <= nowMs - startMs < (minutes + 1) * MsPerMinute
    ensures minutes == 0 <==> nowMs - startMs < MsPerMinute
  {
    var floor := (nowMs - startMs) / MsPerMinute;
    if floor < 0 then 0 else floor
  }

  /** The counters never run backwards as time passes. */
  lemma ElapsedMinutesMonotone(now1: int, now2: int, startMs: int)
    requires now1 <= now2
    ensures ElapsedMinutes(now1, startMs) <= ElapsedMinutes(now2, startMs)
  {
    var m1, m2 := ElapsedMinutes(now1, startMs), ElapsedMinutes(now2, startMs);
    if m1 > 0 {
      assert m1 * MsPerMinute <= now2 - startMs < (m2 + 1) * MsPerMinute;
    }
  }

  /** The waiting-minute counter of each waiting row on screen, at instant nowMs: a row
      without a creation instant is left untouched (None). */
  method WaitingMinutes(nowMs: int, created: seq<Option<int>>) returns (shown: seq<Option<nat>>)
    ensures |shown| == |created|
    ensures forall i :: 0 <= i < |created| ==>
      (shown[i].Some? <==> created[i].Some?) &&
      (created[i].Some? ==> shown[i].value == ElapsedMinutes(nowMs, created[i].value))
  {
    shown := [];
    var i := 0;
    while i < |created|
      invariant 0 <= i <= |created| && |shown| == i
      invariant forall j :: 0 <= j < i ==>
        (shown[j].Some? <==> created[j].Some?) &&
        (created[j].Some? ==> shown[j].value == ElapsedMinutes(nowMs, created[j].value))
    {
      var counter := if created[i].Some? then Some(ElapsedMinutes(nowMs, created[i].value)) else None;
      shown := shown + [counter];
      i := i + 1;
    }
  }

  // ---------------------------------------------------------------------------------------
  // Coalesced refreshes: a refresh request schedules a timer unless one is already pending;
  // when the timer fires it is cleared and the lists are reloaded.

  datatype RefreshEvent = RefreshRequested | TimerFired

  /** Whether a timer is pending after one event: a request always leaves one pending (the
      one it found or the one it scheduled); a firing clears it. */
  function PendingAfterEvent(pending: bool, e: RefreshEvent): bool
  {
    e.RefreshRequested?
  }

  function PendingAfter(pending: bool, events: seq<RefreshEvent>): bool
    decreases |events|
  {
    if events == [] then pending
    else PendingAfter(PendingAfterEvent(pending, events[0]), events[1..])
  }

  /** How many of the events schedule a new timer: the requests that find none pending. */
  function TimersScheduled(pending: bool, events: seq<RefreshEvent>): nat
    decreases |events|
  {
    if events == [] then 0
    else
      var scheduled := if events[0].RefreshRequested? && !pending then 1 else 0;
      scheduled + TimersScheduled(PendingAfterEvent(pending, events[0]), events[1..])
  }

  /** How many reloads run: one per timer firing. */
  function Reloads(events: seq<RefreshEvent>): nat
    decreases |events|
  {
    if events == [] then 0
    else (if events[0].TimerFired? then 1 else 0) + Reloads(events[1..])
  }

  /** A timer fires only while it is pending. */
  predicate FiresOnlyWhenPending(pending: bool, events: seq<RefreshEvent>)
    decreases |events|
  {
    events == [] ||
    ((events[0].TimerFired? ==> pending) && FiresOnlyWhenPending(PendingAfterEvent(pending, events[0]), events[1..]))
  }

  function Count(b: bool): nat { if b then 1 else 0 }

  /** Single flight: every timer ever outstanding has either fired (one reload each) or is
      the one still pending, so there is never more than one timer at a time and never a
      reload nobody asked for. */
  lemma {:induction false} SingleFlight(pending: bool, events: seq<RefreshEvent>)
    requires FiresOnlyWhenPending(pending, events)
    ensures Count(pending) + TimersScheduled(pending, events) == Reloads(events) + Count(PendingAfter(pending, events))
    decreases |events|
  {
    if events != [] {
      SingleFlight(PendingAfterEvent(pending, events[0]), events[1..]);
    }
  }

  /** A burst of requests with no timer pending schedules exactly one timer, and leaves it
      pending; with a timer already pending it schedules none. */
  lemma {:induction false} BurstSchedulesOne(burst: seq<RefreshEvent>)
    requires burst != [] && forall i :: 0 <= i < |burst| ==> burst[i] == RefreshRequested
    ensures TimersScheduled(false, burst) == 1 && PendingAfter(false, burst)
    ensures TimersScheduled(true, burst) == 0
  {
    BurstWhilePending(burst[1..]);
    BurstWhilePending(burst);
  }

  lemma {:induction false} BurstWhilePending(burst: seq<RefreshEvent>)
    requires forall i :: 0 <= i < |burst| ==> burst[i] == RefreshRequested
    ensures TimersScheduled(true, burst) == 0 && PendingAfter(true, burst)
    decreases |burst|
  {
    if burst != [] {
      BurstWhilePending(burst[1..]);
    }
  }

  class AdminSession {
    /** `turnoActual`: the next waiting ticket, if any. */
    var current: Option<Ticket>
    /** `serviciosCache` */
    var services: map<string, int>
    /** `configNegocio` */
    var config: AdminConfig
    /** Whether a refresh timer is pending. */
    var refreshPending: bool

    constructor ()
      ensures current == None && services == map[]
      ensures config == DefaultAdminConfig && !refreshPending
    {
      current := None;
      services := map[];
      config := DefaultAdminConfig;
      refreshPending := false;
    }

    /** cargarConfiguracion: a stored row replaces the configuration whole; a failed query
        keeps it and warns the operator; no row keeps it silently. */
    method LoadConfig(q: AdminConfigQuery) returns (warned: bool)
      modifies this`config
      ensures warned <==> q.AdminConfigFailed?
      ensures q.AdminConfigLoaded? && q.data.Some? ==> config == q.data.value
      ensures q.AdminConfigFailed? || q.data.None? ==> config == old(config)
    {
      match q
      case AdminConfigFailed(_) =>
        warned := true;
      case AdminConfigLoaded(data) =>
        warned := false;
        if data.Some? {
          config := data.value;
        }
    }

    /** cargarServicios: on success the catalog is emptied and refilled from the active
        services; on failure it is left as it was. */
    method LoadServices(q: ServiceQuery)
      modifies this`services
      ensures services == ReloadedCatalog(old(services), q)
    {
      if q.ServicesLoaded? {
        services := BuildCatalog(RowsOrEmpty(q.data));
      }
    }

    /** refrescarUI: schedules a timer only when none is pending. */
    method RequestRefresh() returns (scheduled: bool)
      modifies this`refreshPending
      ensures scheduled <==> !old(refreshPending)
      ensures refreshPending
      ensures Count(scheduled) == TimersScheduled(old(refreshPending), [RefreshRequested])
      ensures refreshPending == PendingAfter(old(refreshPending), [RefreshRequested])
    {
      if refreshPending {
        return false;
      }
      refreshPending := true;
      scheduled := true;
    }

    /** The refresh timer fires: it is cleared, then the lists are reloaded. When both list
        queries answer, the waiting-list query returns today's waiting tickets in queue
        order; when either fails nothing is returned. The panel then shows an error
        notification, which is not modelled beyond that None result. */
    method RefreshTimerFires(q: TicketsQuery, today: string) returns (waiting: Option<seq<Ticket>>)
      requires refreshPending
      modifies this`refreshPending
      ensures !refreshPending && refreshPending == PendingAfter(old(refreshPending), [TimerFired])
      ensures waiting.Some? <==> q.TicketsLoaded?
      ensures waiting.Some? ==> waiting.value == WaitingQueue(q.rows, today)
      ensures waiting.Some? ==>
        QueueSorted(waiting.value) && multiset(waiting.value) == multiset(WaitingOn(q.rows, today))
    {
      refreshPending := false;
      if q.TicketsFailed? {
        return None;
      }
      waiting := Some(WaitingQueue(q.rows, today));
    }

    /** A change to the stored configuration: reload it, then ask for a refresh. */
    method OnConfigChanged(q: AdminConfigQuery) returns (warned: bool, scheduled: bool)
      modifies this`config, this`refreshPending
      ensures warned <==> q.AdminConfigFailed?
      ensures q.AdminConfigLoaded? && q.data.Some? ==> config == q.data.value
      ensures q.AdminConfigFailed? || q.data.None? ==> config == old(config)
      ensures refreshPending && (scheduled <==> !old(refreshPending))
    {
      warned := LoadConfig(q);
      scheduled := RequestRefresh();
    }

    /** atenderAhora: with no ticket next in line nothing changes; otherwise the conditioned
        update runs against the table at instant nowMs. A store error leaves the table as it
        was and is reported; success is announced with the ticket's code and asks for a
        refresh, even when the update matched no row (another operator got there first). */
    method AttendNow(rows: seq<Ticket>, nowMs: int, storeError: Option<string>) returns (after: seq<Ticket>, notice: Notice)
      modifies this`refreshPending
      ensures current.None? ==> after == rows && notice == NoTicketWaiting
      ensures current.Some? && storeError.Some? ==> after == rows && notice == AttendFailed(storeError.value)
      ensures current.Some? && storeError.None? ==>
        after == AttendRows(rows, current.value.id, nowMs) && notice == Attending(current.value.code)
      ensures notice.Attending? ==> refreshPending
      ensures !notice.Attending? ==> refreshPending == old(refreshPending)
    {
      after := rows;
      if current.None? {
        notice := NoTicketWaiting;
        return;
      }
      if storeError.Some? {
        notice := AttendFailed(storeError.value);
        return;
      }
      after := AttendRows(rows, current.value.id, nowMs);
      notice := Attending(current.value.code);
      var _ := RequestRefresh();
    }
  }
}
