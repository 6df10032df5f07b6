/**
 * The service catalog both panels keep in memory: service name to duration in minutes,
 * rebuilt from the rows of the active-services query.
 */
module Catalog {
  import opened Wrappers

  /** One row of the services query (`nombre`, `duracion_min`). */
  datatype ServiceRow = ServiceRow(name: string, minutes: int)

  /** The services query: it failed (threw), or it returned data, possibly null. */
  datatype ServiceQuery = ServicesFailed | ServicesLoaded(data: Option<seq<ServiceRow>>)

  /** The catalog that assigning the rows one by one, in order, into an empty object gives. */
  function CatalogOf(rows: seq<ServiceRow>): (m: map<string, int>)
    ensures |m| <= |rows|
  {
    if rows == [] then map[]
    else
      var last := rows[|rows| - 1];
      CatalogOf(rows[..|rows| - 1])[last.name := last.minutes]
  }

  /** The catalog names exactly the services of the rows. */
  lemma {:induction false} CatalogKeys(rows: seq<ServiceRow>)
    ensures forall name :: name in CatalogOf(rows) <==> exists i :: 0 <= i < |rows| && rows[i].name == name
  {
    if rows != [] {
      var init := rows[..|rows| - 1];
      CatalogKeys(init);
      forall name | name in CatalogOf(rows)
        ensures exists i :: 0 <= i < |rows| && rows[i].name == name
      {
        if name != rows[|rows| - 1].name {
          assert name in CatalogOf(init);
          var i :| 0 <= i < |init| && init[i].name == name;
          assert rows[i].name == name;
        }
      }
      forall i | 0 <= i < |rows| ensures rows[i].name in CatalogOf(rows) {
        if i < |rows| - 1 {
          assert init[i] == rows[i];
        }
      }
    }
  }

  /** Each name maps to the minutes of the last row with that name: later duplicates win. */
  lemma {:induction false} CatalogLastWins(rows: seq<ServiceRow>, i: int)
    requires 0 <= i < |rows|
    requires forall j :: i < j < |rows| ==> rows[j].name != rows[i].name
    ensures rows[i].name in CatalogOf(rows) && CatalogOf(rows)[rows[i].name] == rows[i].minutes
  {
    if i < |rows| - 1 {
      var init := rows[..|rows| - 1];
      assert init[i] == rows[i];
      forall j | i < j < |init| ensures init[j].name != init[i].name {
        assert init[j] == rows[j];
      }
      CatalogLastWins(init, i);
    }
  }

  /** The rebuild loop: starting from an empty catalog, each row in turn sets its name to its
      minutes. */
  method BuildCatalog(rows: seq<ServiceRow>) returns (m: map<string, int>)
    ensures m == CatalogOf(rows)
  {
    m := map[];
    var i := 0;
    while i < |rows|
      invariant 0 <= i <= |rows|
      invariant m == CatalogOf(rows[..i])
    {
      assert rows[..i + 1][..i] == rows[..i];
      m := m[rows[i].name := rows[i].minutes];
      i := i + 1;
    }
    assert rows[..|rows|] == rows;
  }

  /** `data || []` */
  function RowsOrEmpty(data: Option<seq<ServiceRow>>): seq<ServiceRow>
  {
    if data.Some? then data.value else []
  }

  /** The catalog after a reload: unchanged when the query failed; otherwise rebuilt from the
      returned rows (none when the data is null), with no entry of the old catalog kept. */
  function ReloadedCatalog(previous: map<string, int>, q: ServiceQuery): (m: map<string, int>)
    ensures q.ServicesFailed? ==> m == previous
    ensures q.ServicesLoaded? ==> |m| <= |RowsOrEmpty(q.data)|
    ensures q == ServicesLoaded(None) ==> m == map[]
  {
    match q
    case ServicesFailed => previous
    case ServicesLoaded(data) => CatalogOf(RowsOrEmpty(data))
  }

  /** A failed reload keeps the catalog; a successful one forgets every old entry whose
      service is not among the returned rows. */
  lemma ReloadKeepsOrReplaces(previous: map<string, int>, q: ServiceQuery)
    ensures q.ServicesFailed? ==> ReloadedCatalog(previous, q) == previous
    ensures q.ServicesLoaded? ==> forall name :: name in ReloadedCatalog(previous, q) <==>
      exists i :: 0 <= i < |RowsOrEmpty(q.data)| && RowsOrEmpty(q.data)[i].name == name
  {
    if q.ServicesLoaded? {
      CatalogKeys(RowsOrEmpty(q.data));
    }
  }
}
