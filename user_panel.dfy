/**
 * The customer panel's state: the configuration cache merged over built-in defaults, the
 * service catalog, the stored phone and the code of the customer's waiting ticket, and the
 * operations that update them from query results.
 */
module UserPanel {
  import opened Wrappers
  import opened OperatingDay
  import opened Catalog
  import opened Tickets

  /** The customer panel's configuration cache: opening and closing time, daily ticket
      limit and operating days. */
  datatype Config = Config(openAt: string, closeAt: string, dailyLimit: int, operatingDays: OperatingDays)

  const DefaultConfig: Config := Config("09:00", "18:00", 50, Names(DefaultDays))

  /** A row of the configuration table; None marks a column the row does not carry. */
  datatype ConfigRow = ConfigRow(
    openAt: Option<string>,
    closeAt: Option<string>,
    dailyLimit: Option<int>,
    operatingDays: Option<OperatingDays>)

  /** The configuration query: it failed with a message, or returned a row or nothing. */
  datatype ConfigQuery = ConfigFailed(message: string) | ConfigLoaded(data: Option<ConfigRow>)

  /** The waiting tickets of the customer's phone, newest first: the query failed, or it
      returned the codes, possibly as null. */
  datatype ActiveQuery = ActiveFailed | ActiveLoaded(codes: Option<seq<string>>)

  function Override<T>(present: Option<T>, current: T): T
  {
    if present.Some? then present.value else current
  }

  /** `{ ...cache, ...row }`: every column the row carries replaces the cached field, and
      every other field keeps its cached value. */
  function MergeConfig(cache: Config, row: ConfigRow): (c: Config)
    ensures row.openAt.Some? ==> c.openAt == row.openAt.value
    ensures row.closeAt.Some? ==> c.closeAt == row.closeAt.value
    ensures row.dailyLimit.Some? ==> c.dailyLimit == row.dailyLimit.value
    ensures row.operatingDays.Some? ==> c.operatingDays == row.operatingDays.value
    ensures row.openAt.None? ==> c.openAt == cache.openAt
    ensures row.closeAt.None? ==> c.closeAt == cache.closeAt
    ensures row.dailyLimit.None? ==> c.dailyLimit == cache.dailyLimit
    ensures row.operatingDays.None? ==> c.operatingDays == cache.operatingDays
  {
    Config(
      Override(row.openAt, cache.openAt),
      Override(row.closeAt, cache.closeAt),
      Override(row.dailyLimit, cache.dailyLimit),
      Override(row.operatingDays, cache.operatingDays))
  }

  /** Merging the same row twice is merging it once; a row that carries every column
      determines the configuration whatever was cached. */
  lemma MergeProperties(cache: Config, other: Config, row: ConfigRow)
    ensures MergeConfig(MergeConfig(cache, row), row) == MergeConfig(cache, row)
    ensures row.openAt.Some? && row.closeAt.Some? && row.dailyLimit.Some? && row.operatingDays.Some? ==>
      MergeConfig(cache, row) == MergeConfig(other, row)
    ensures MergeConfig(cache, ConfigRow(None, None, None, None)) == cache
  {
  }

  class UserSession {
    /** `configCache` */
    var config: Config
    /** `serviciosCache` */
    var services: map<string, int>
    /** `turnoAsignado` */
    var assignedCode: Option<string>
    /** `telefonoUsuario`, as read from the browser's storage; None stands for null */
    var phone: Option<string>

    /** The panel's initial state; an empty stored phone is falsy and becomes null. */
    constructor (storedPhone: Option<string>)
      ensures config == DefaultConfig && services == map[]
      ensures assignedCode == None
      ensures phone == (if storedPhone == Some([]) then None else storedPhone)
    {
      config := DefaultConfig;
      services := map[];
      assignedCode := None;
      phone := if storedPhone == Some([]) then None else storedPhone;
    }

    /** cargarServiciosActivos: on success the catalog is emptied and refilled from the rows;
        on failure it is left as it was. */
    method LoadActiveServices(q: ServiceQuery)
      modifies this`services
      ensures services == ReloadedCatalog(old(services), q)
    {
      if q.ServicesLoaded? {
        services := BuildCatalog(RowsOrEmpty(q.data));
      }
    }

    /** obtenerConfig: a failed query is raised with its message and leaves the cache; a
        returned row is merged over the cache and handed back. */
    method LoadConfig(q: ConfigQuery) returns (r: Result<Option<ConfigRow>, string>)
      modifies this`config
      ensures q.ConfigFailed? ==> r == Failure(q.message) && config == old(config)
      ensures q.ConfigLoaded? ==> r == Success(q.data)
      ensures q.ConfigLoaded? && q.data.Some? ==> config == MergeConfig(old(config), q.data.value)
      ensures q.ConfigLoaded? && q.data.None? ==> config == old(config)
    {
      match q
      case ConfigFailed(message) =>
        r := Failure(message);
      case ConfigLoaded(data) =>
        if data.Some? {
          config := MergeConfig(config, data.value);
        }
        r := Success(data);
    }

    /** verificarDiaLaboralFecha against the cached configuration. */
    method IsOperatingDayOn(weekday: int) returns (open: bool)
      requires 0 <= weekday < 7
      ensures open <==> IsOperatingDay(config.operatingDays, weekday)
    {
      open := IsOperatingDay(config.operatingDays, weekday);
    }

    /** verificarTurnoActivo: re-reads the stored phone; without one there is no active
        ticket; otherwise the newest waiting ticket of that phone, if the query returns one,
        becomes the assigned code. */
    method CheckActiveTicket(storedPhone: Option<string>, q: ActiveQuery) returns (active: bool)
      modifies this`phone, this`assignedCode
      ensures phone == storedPhone
      ensures active <==> storedPhone.Some? && storedPhone.value != []
                          && q.ActiveLoaded? && q.codes.Some? && q.codes.value != []
      ensures active ==> assignedCode == Some(q.codes.value[0])
      ensures !active ==> assignedCode == old(assignedCode)
    {
      phone := storedPhone;
      if phone.None? || phone.value == [] {
        return false;
      }
      if q.ActiveFailed? || q.codes.None? || q.codes.value == [] {
        return false;
      }
      assignedCode := Some(q.codes.value[0]);
      active := true;
    }

    /** cancelarTurno: the ticket table after the cancel update for this code and the
        session's phone. */
    method CancelTicket(rows: seq<Ticket>, code: string) returns (after: seq<Ticket>)
      ensures |after| == |rows|
      ensures forall i :: 0 <= i < |rows| && CancelMatches(rows[i], code, phone) ==>
        after[i] == rows[i].(state := Cancelled)
      ensures forall i :: 0 <= i < |rows| && !CancelMatches(rows[i], code, phone) ==> after[i] == rows[i]
    {
      after := CancelRows(rows, code, phone);
      forall i | 0 <= i < |rows| {
        CancelRowEffect(rows, code, phone, i);
      }
    }
  }
}
