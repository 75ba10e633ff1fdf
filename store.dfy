/** The local SQLite store (backend/database.py) as a state machine: the
    four tables `reportes`, `clientes`, `tecnicos` and `usuarios`, the
    statements that change them, and the queries that read them. */
module Store {
  import opened Text
  import opened Seqs
  import opened Wrappers

  /** A row of `reportes` (lines 16-22 and the migrated columns). */
  datatype Reporte = Reporte(id: int, fecha: string, cliente: string, tecnico: string,
                             observaciones: string, imagenPath: string, pdfPath: string,
                             detalles: string, emailEnviado: int, latitud: string, longitud: string)

  /** A row of `usuarios` (lines 37-42): a contact person of a client. */
  datatype Usuario = Usuario(nombre: string, cliente: string)

  // ---------------------------------------------------------------------
  // Row filters the DELETE and UPDATE statements apply
  // ---------------------------------------------------------------------

  /** Line 139: the users that do not belong to `cliente`, in order. */
  function UsersNotOf(us: seq<Usuario>, cliente: string): (r: seq<Usuario>)
    ensures forall u :: u in r <==> u in us && u.cliente != cliente
  {
    if us == [] then []
    else UsersNotOf(us[..|us| - 1], cliente) + (if us[|us| - 1].cliente != cliente then [us[|us| - 1]] else [])
  }

  /** Line 180: the users other than `nombre` of `cliente`, in order. */
  function UsersExcept(us: seq<Usuario>, nombre: string, cliente: string): (r: seq<Usuario>)
    ensures forall u :: u in r <==> u in us && u != Usuario(nombre, cliente)
  {
    if us == [] then []
    else UsersExcept(us[..|us| - 1], nombre, cliente)
         + (if us[|us| - 1] != Usuario(nombre, cliente) then [us[|us| - 1]] else [])
  }

  /** Line 101: the technicians other than `nombre`, in order. */
  function NamesExcept(ns: seq<string>, nombre: string): (r: seq<string>)
    ensures forall n :: n in r <==> n in ns && n != nombre
  {
    if ns == [] then []
    else
      PrefixMembers(ns, |ns| - 1);
      NamesExcept(ns[..|ns| - 1], nombre) + (if ns[|ns| - 1] != nombre then [ns[|ns| - 1]] else [])
  }

  predicate Distinct(ns: seq<string>) {
    forall i, j :: 0 <= i < j < |ns| ==> ns[i] != ns[j]
  }

  /** Removing a name keeps the names distinct. */
  lemma {:induction false} NamesExceptDistinct(ns: seq<string>, nombre: string)
    requires Distinct(ns)
    ensures Distinct(NamesExcept(ns, nombre))
  {
    if ns != [] {
      var init := ns[..|ns| - 1];
      forall i, j | 0 <= i < j < |init| ensures init[i] != init[j] {
        assert init[i] == ns[i] && init[j] == ns[j];
      }
      NamesExceptDistinct(init, nombre);
      forall i | 0 <= i < |init| ensures init[i] != ns[|ns| - 1] {
        assert init[i] == ns[i];
      }
      if ns[|ns| - 1] != nombre {
        DistinctSnoc(NamesExcept(init, nombre), ns[|ns| - 1]);
      }
    }
  }

  lemma DistinctSnoc(ns: seq<string>, x: string)
    requires Distinct(ns) && x !in ns
    ensures Distinct(ns + [x])
  {
    var r := ns + [x];
    forall i, j | 0 <= i < j < |r| ensures r[i] != r[j] {
      assert r[i] == ns[i];
      if j < |ns| {
        assert r[j] == ns[j];
      }
    }
  }

  /** Line 232: every row with this id gets the new e-mail flag. */
  function WithEmailFlag(rs: seq<Reporte>, id: int, estado: int): (r: seq<Reporte>)
    ensures |r| == |rs|
    ensures forall i :: 0 <= i < |rs| ==>
              r[i] == (if rs[i].id == id then rs[i].(emailEnviado := estado) else rs[i])
  {
    if rs == [] then []
    else
      var last := rs[|rs| - 1];
      WithEmailFlag(rs[..|rs| - 1], id, estado) + [if last.id == id then last.(emailEnviado := estado) else last]
  }

  /** Lines 263-267: every row with this id gets the new values; the
      position columns keep theirs. */
  function WithReportData(rs: seq<Reporte>, nuevo: Reporte): (r: seq<Reporte>)
    ensures |r| == |rs|
    ensures forall i :: 0 <= i < |rs| ==>
              r[i] == (if rs[i].id == nuevo.id
                       then nuevo.(latitud := rs[i].latitud, longitud := rs[i].longitud)
                       else rs[i])
  {
    if rs == [] then []
    else
      var last := rs[|rs| - 1];
      WithReportData(rs[..|rs| - 1], nuevo)
        + [if last.id == nuevo.id then nuevo.(latitud := last.latitud, longitud := last.longitud) else last]
  }

  // ---------------------------------------------------------------------
  // The store
  // ---------------------------------------------------------------------

  /** The database file: its four tables, and the AUTOINCREMENT sequence of
      `reportes` (the largest id ever issued there). */
  class Db {
    var reportes: seq<Reporte>
    var clientes: map<string, string>
    var tecnicos: seq<string>
    var usuarios: seq<Usuario>
    var reportesSeq: int
    /** Every report id ever issued, deleted rows included. */
    ghost var issued: set<int>

    /** Report ids ascend in row order and never pass the sequence; the
        technicians' names are UNIQUE (line 27). */
    ghost predicate Valid()
      reads this
    {
      && (forall i, j :: 0 <= i < j < |reportes| ==> reportes[i].id < reportes[j].id)
      && (forall i :: 0 <= i < |reportes| ==> reportes[i].id in issued)
      && reportesSeq >= 0
      && (forall k :: k in issued ==> 1 <= k <= reportesSeq)
      && Distinct(tecnicos)
    }

    /** Lines 10-43: the tables as first created, empty. */
    constructor ()
      ensures Valid()
      ensures reportes == [] && clientes == map[] && tecnicos == [] && usuarios == []
      ensures reportesSeq == 0 && issued == {}
    {
      reportes, clientes, tecnicos, usuarios := [], map[], [], [];
      reportesSeq, issued := 0, {};
    }

    /** Lines 121-133: an empty or missing name is refused with nothing
        changed; otherwise the client row is inserted, or replaced with the
        new e-mail when the name is already there. */
    method AgregarCliente(nombre: Option<string>, email: string) returns (ok: bool)
      requires Valid()
      modifies this
      ensures Valid()
      ensures ok <==> nombre.Some? && nombre.value != ""
      ensures clientes == if ok then old(clientes)[nombre.value := email] else old(clientes)
      ensures reportes == old(reportes) && tecnicos == old(tecnicos) && usuarios == old(usuarios)
      ensures reportesSeq == old(reportesSeq) && issued == old(issued)
    {
      if nombre.None? || nombre.value == "" {
        return false;
      }
      clientes := clientes[nombre.value := email];
      ok := true;
    }

    /** Lines 135-143: the client's users are deleted, then the client. */
    method EliminarCliente(nombre: string) returns (ok: bool)
      requires Valid()
      modifies this
      ensures Valid() && ok
      ensures usuarios == UsersNotOf(old(usuarios), nombre)
      ensures clientes == old(clientes) - {nombre}
      ensures reportes == old(reportes) && tecnicos == old(tecnicos)
      ensures reportesSeq == old(reportesSeq) && issued == old(issued)
    {
      usuarios := UsersNotOf(usuarios, nombre);
      clientes := clientes - {nombre};
      ok := true;
    }

    /** Lines 86-95: the UNIQUE name makes a repeated insert fail with
        nothing changed. */
    method AgregarNuevoTecnico(nombre: string) returns (ok: bool)
      requires Valid()
      modifies this
      ensures Valid()
      ensures ok <==> nombre !in old(tecnicos)
      ensures tecnicos == if ok then old(tecnicos) + [nombre] else old(tecnicos)
      ensures reportes == old(reportes) && clientes == old(clientes) && usuarios == old(usuarios)
      ensures reportesSeq == old(reportesSeq) && issued == old(issued)
    {
      if nombre in tecnicos {
        return false;
      }
      DistinctSnoc(tecnicos, nombre);
      tecnicos := tecnicos + [nombre];
      ok := true;
    }

    /** Lines 97-106. */
    method EliminarTecnico(nombre: string) returns (ok: bool)
      requires Valid()
      modifies this
      ensures Valid() && ok
      ensures tecnicos == NamesExcept(old(tecnicos), nombre)
      ensures reportes == old(reportes) && clientes == old(clientes) && usuarios == old(usuarios)
      ensures reportesSeq == old(reportesSeq) && issued == old(issued)
    {
      NamesExceptDistinct(tecnicos, nombre);
      tecnicos := NamesExcept(tecnicos, nombre);
      ok := true;
    }

    /** Lines 165-174: the foreign key is not enforced (SQLite leaves it
        off unless asked), so a user of an unknown client is accepted too. */
    method AgregarUsuario(nombre: string, cliente: string) returns (ok: bool)
      requires Valid()
      modifies this
      ensures Valid() && ok
      ensures usuarios == old(usuarios) + [Usuario(nombre, cliente)]
      ensures reportes == old(reportes) && clientes == old(clientes) && tecnicos == old(tecnicos)
      ensures reportesSeq == old(reportesSeq) && issued == old(issued)
    {
      usuarios := usuarios + [Usuario(nombre, cliente)];
      ok := true;
    }

    /** Lines 176-185. */
    method EliminarUsuario(nombre: string, cliente: string) returns (ok: bool)
      requires Valid()
      modifies this
      ensures Valid() && ok
      ensures usuarios == UsersExcept(old(usuarios), nombre, cliente)
      ensures reportes == old(reportes) && clientes == old(clientes) && tecnicos == old(tecnicos)
      ensures reportesSeq == old(reportesSeq) && issued == old(issued)
    {
      usuarios := UsersExcept(usuarios, nombre, cliente);
      ok := true;
    }

    /** Lines 236-246: one row is added, under the next AUTOINCREMENT id,
        which is above every id ever issued. */
    method GuardarReporte(fecha: string, cliente: string, tecnico: string, obs: string, fotosJson: string,
                          pdfPath: string, detallesJson: string, estadoEnvio: int, lat: string, lon: string)
      returns (id: int)
      requires Valid()
      modifies this
      ensures Valid()
      ensures forall k :: k in old(issued) ==> k < id
      ensures id !in old(issued) && issued == old(issued) + {id}
      ensures reportes == old(reportes)
                          + [Reporte(id, fecha, cliente, tecnico, obs, fotosJson, pdfPath, detallesJson, estadoEnvio, lat, lon)]
      ensures clientes == old(clientes) && tecnicos == old(tecnicos) && usuarios == old(usuarios)
    {
      forall i | 0 <= i < |reportes| ensures reportes[i].id <= reportesSeq {
        assert reportes[i].id in issued;
      }
      id := reportesSeq + 1;
      var prev := reportes;
      reportes := reportes + [Reporte(id, fecha, cliente, tecnico, obs, fotosJson, pdfPath, detallesJson, estadoEnvio, lat, lon)];
      reportesSeq := id;
      issued := issued + {id};
      forall i, j | 0 <= i < j < |reportes| ensures reportes[i].id < reportes[j].id {
        assert reportes[i] == prev[i];
        if j < |prev| {
          assert reportes[j] == prev[j];
        }
      }
    }

    /** Lines 229-234: only the flag of the row with this id changes, and
        nothing at all when there is no such row. */
    method ActualizarEstadoEmail(id: int, estado: int)
      requires Valid()
      modifies this
      ensures Valid()
      ensures reportes == WithEmailFlag(old(reportes), id, estado)
      ensures clientes == old(clientes) && tecnicos == old(tecnicos) && usuarios == old(usuarios)
      ensures reportesSeq == old(reportesSeq) && issued == old(issued)
    {
      EmailFlagKeepsIds(reportes, id, estado);
      reportes := WithEmailFlag(reportes, id, estado);
    }

    /** Lines 260-269: the row with this id takes the new values. */
    method ActualizarReporte(id: int, fecha: string, cliente: string, tecnico: string, obs: string,
                             fotosJson: string, pdfPath: string, detallesJson: string, estadoEnvio: int)
      requires Valid()
      modifies this
      ensures Valid()
      ensures reportes == WithReportData(old(reportes),
                            Reporte(id, fecha, cliente, tecnico, obs, fotosJson, pdfPath, detallesJson, estadoEnvio, "", ""))
      ensures clientes == old(clientes) && tecnicos == old(tecnicos) && usuarios == old(usuarios)
      ensures reportesSeq == old(reportesSeq) && issued == old(issued)
    {
      ReportDataKeepsIds(reportes, Reporte(id, fecha, cliente, tecnico, obs, fotosJson, pdfPath, detallesJson, estadoEnvio, "", ""));
      reportes := WithReportData(reportes,
                    Reporte(id, fecha, cliente, tecnico, obs, fotosJson, pdfPath, detallesJson, estadoEnvio, "", ""));
    }
  }

  /** Updates in place keep every row's id where it was. */
  lemma EmailFlagKeepsIds(rs: seq<Reporte>, id: int, estado: int)
    ensures forall i :: 0 <= i < |rs| ==> WithEmailFlag(rs, id, estado)[i].id == rs[i].id
  {
  }

  lemma ReportDataKeepsIds(rs: seq<Reporte>, nuevo: Reporte)
    ensures forall i :: 0 <= i < |rs| ==> WithReportData(rs, nuevo)[i].id == rs[i].id
  {
  }

  // ---------------------------------------------------------------------
  // Queries, over the contents of the tables
  // ---------------------------------------------------------------------

  /** Lines 147-153: the client's e-mail, or "" when there is no such client. */
  function CorreoCliente(clientes: map<string, string>, nombre: string): string {
    if nombre in clientes then clientes[nombre] else ""
  }

  /** Upserting a client sets the e-mail read back for that name and no other. */
  lemma CorreoAfterUpsert(clientes: map<string, string>, nombre: string, email: string, otro: string)
    ensures CorreoCliente(clientes[nombre := email], nombre) == email
    ensures otro != nombre ==> CorreoCliente(clientes[nombre := email], otro) == CorreoCliente(clientes, otro)
  {
  }

  /** Deleting a client leaves no user of it, and every user of another
      client where it was. */
  lemma DeleteClientUsers(us: seq<Usuario>, nombre: string, u: Usuario)
    ensures u in UsersNotOf(us, nombre) <==> u in us && u.cliente != nombre
    ensures forall v :: v in UsersNotOf(us, nombre) ==> v.cliente != nombre
  {
  }

  /** A row of the pending list (line 275). */
  datatype Pendiente = Pendiente(id: int, pdfPath: string, cliente: string, tecnico: string)

  function PendienteOf(r: Reporte): Pendiente {
    Pendiente(r.id, r.pdfPath, r.cliente, r.tecnico)
  }

  /** Lines 271-278: the reports whose e-mail was not sent, in row order. */
  function Pendientes(rs: seq<Reporte>): (r: seq<Pendiente>)
    ensures |r| <= |rs|
  {
    if rs == [] then []
    else Pendientes(rs[..|rs| - 1]) + (if rs[|rs| - 1].emailEnviado == 0 then [PendienteOf(rs[|rs| - 1])] else [])
  }

  /** The pending list holds exactly the rows with the flag at 0. */
  lemma {:induction false} PendientesExactly(rs: seq<Reporte>, p: Pendiente)
    ensures p in Pendientes(rs) <==> exists i :: 0 <= i < |rs| && rs[i].emailEnviado == 0 && PendienteOf(rs[i]) == p
  {
    if rs != [] {
      var init := rs[..|rs| - 1];
      PendientesExactly(init, p);
      if p in Pendientes(init) {
        var i :| 0 <= i < |init| && init[i].emailEnviado == 0 && PendienteOf(init[i]) == p;
        assert rs[i] == init[i];
      }
      if exists i :: 0 <= i < |rs| && rs[i].emailEnviado == 0 && PendienteOf(rs[i]) == p {
        var i :| 0 <= i < |rs| && rs[i].emailEnviado == 0 && PendienteOf(rs[i]) == p;
        if i < |init| {
          assert init[i] == rs[i];
        }
      }
    }
  }

  /** A saved report joins the pending list, at its end, exactly when it is
      saved with the flag at 0. */
  lemma PendientesAfterSave(rs: seq<Reporte>, r: Reporte)
    ensures Pendientes(rs + [r]) == Pendientes(rs) + (if r.emailEnviado == 0 then [PendienteOf(r)] else [])
  {
    TakeSnoc(rs, r);
  }

  /** Marking a report as sent takes it off the pending list and leaves the
      other rows' membership as it was. */
  lemma PendientesAfterFlag(rs: seq<Reporte>, id: int, estado: int, p: Pendiente)
    requires estado != 0
    ensures p in Pendientes(WithEmailFlag(rs, id, estado)) <==> p in Pendientes(rs) && p.id != id
  {
    var ws := WithEmailFlag(rs, id, estado);
    PendientesExactly(rs, p);
    PendientesExactly(ws, p);
    if p in Pendientes(ws) {
      var i :| 0 <= i < |ws| && ws[i].emailEnviado == 0 && PendienteOf(ws[i]) == p;
      assert rs[i] == ws[i];
    }
    if p in Pendientes(rs) && p.id != id {
      var i :| 0 <= i < |rs| && rs[i].emailEnviado == 0 && PendienteOf(rs[i]) == p;
      assert ws[i] == rs[i];
    }
  }

  /** Number of reports whose flag is 0 (line 292). */
  function CountPending(rs: seq<Reporte>): nat {
    if rs == [] then 0
    else CountPending(rs[..|rs| - 1]) + (if rs[|rs| - 1].emailEnviado == 0 then 1 else 0)
  }

  /** Number of reports of a client. */
  function CountClient(rs: seq<Reporte>, cliente: string): nat {
    if rs == [] then 0
    else CountClient(rs[..|rs| - 1], cliente) + (if rs[|rs| - 1].cliente == cliente then 1 else 0)
  }

  /** The distinct clients of the reports, ascending (the GROUP BY order). */
  function Clients(rs: seq<Reporte>): (r: seq<string>)
    ensures Ascending(r)
    ensures forall c :: c in r <==> exists i :: 0 <= i < |rs| && rs[i].cliente == c
  {
    if rs == [] then []
    else
      var init := rs[..|rs| - 1];
      var r := AddKey(rs[|rs| - 1].cliente, Clients(init));
      InitIndex(rs);
      r
  }

  /** The first key of an ascending list with the highest count: the
      client that `ORDER BY c DESC LIMIT 1` reports. */
  function Busiest(ks: seq<string>, rs: seq<Reporte>): (b: string)
    requires ks != []
    ensures b in ks
    ensures forall k :: k in ks ==> CountClient(rs, k) <= CountClient(rs, b)
  {
    if |ks| == 1 then ks[0]
    else
      var b0 := Busiest(ks[..|ks| - 1], rs);
      var k := ks[|ks| - 1];
      assert forall x :: x in ks ==> x in ks[..|ks| - 1] || x == k;
      if CountClient(rs, k) > CountClient(rs, b0) then k else b0
  }

  /** The totals of the dashboard (lines 282-301). */
  datatype Kpis = Kpis(total: nat, pendientes: nat, clienteTop: string)

  /** Lines 282-301. On a tie for the top client the query leaves the order
      open; the model takes the first client in BINARY order. */
  function KpisGenerales(rs: seq<Reporte>): Kpis {
    var cs := Clients(rs);
    var top := if cs == [] then "N/A"
               else var b := Busiest(cs, rs); b + " (" + NatToString(CountClient(rs, b)) + ")";
    Kpis(|rs|, CountPending(rs), top)
  }

  /** The pending count of the dashboard is the length of the pending list. */
  lemma {:induction false} PendingCountMatchesList(rs: seq<Reporte>)
    ensures KpisGenerales(rs).pendientes == |Pendientes(rs)|
  {
    if rs != [] {
      PendingCountMatchesList(rs[..|rs| - 1]);
    }
  }

  lemma {:induction false} CountClientPositive(rs: seq<Reporte>, i: nat)
    requires i < |rs|
    ensures CountClient(rs, rs[i].cliente) >= 1
  {
    if i < |rs| - 1 {
      CountClientPositive(rs[..|rs| - 1], i);
    }
  }

  /** With no reports the top client is "N/A"; otherwise it is a client
      with reports, none with more, and every client before it in BINARY
      order has strictly fewer. */
  lemma {:induction false} TopClientIsBusiest(rs: seq<Reporte>)
    ensures rs == [] <==> KpisGenerales(rs).clienteTop == "N/A"
    ensures rs != [] ==>
              var b := Busiest(Clients(rs), rs);
              && KpisGenerales(rs).clienteTop == b + " (" + NatToString(CountClient(rs, b)) + ")"
              && CountClient(rs, b) >= 1
              && (forall i :: 0 <= i < |rs| ==> CountClient(rs, rs[i].cliente) <= CountClient(rs, b))
  {
    if rs != [] {
      var cs := Clients(rs);
      assert rs[0].cliente in cs;
      var b := Busiest(cs, rs);
      var i :| 0 <= i < |rs| && rs[i].cliente == b;
      CountClientPositive(rs, i);
      var top := KpisGenerales(rs).clienteTop;
      assert top == b + " (" + NatToString(CountClient(rs, b)) + ")";
      assert |top| > 3;
    }
  }

  /** Ties go to the first client in BINARY order. */
  lemma {:induction false} BusiestFirstOnTies(ks: seq<string>, rs: seq<Reporte>, k: string)
    requires ks != [] && Ascending(ks)
    requires k in ks && LexLess(k, Busiest(ks, rs))
    ensures CountClient(rs, k) < CountClient(rs, Busiest(ks, rs))
  {
    LexLessIrreflexive(k);
    if |ks| > 1 {
      var init := ks[..|ks| - 1];
      var last := ks[|ks| - 1];
      var b0 := Busiest(init, rs);
      assert forall x :: x in ks ==> x in init || x == last;
      var j :| 0 <= j < |init| && init[j] == b0;
      assert LexLess(ks[j], ks[|ks| - 1]);
      LexLessIrreflexive(last);
      if Busiest(ks, rs) != last {
        assert Busiest(ks, rs) == b0;
        LexLessAsymmetric(b0, last);
        assert k != last;
        BusiestFirstOnTies(init, rs, k);
      } else {
        assert b0 != last;
        assert k != last && k in init;
        assert CountClient(rs, k) <= CountClient(rs, b0) < CountClient(rs, last);
      }
    }
  }

  /** `substr(fecha, 1, 7)`: the year and month of an ISO date. */
  function Month(fecha: string): string {
    if |fecha| <= 7 then fecha else fecha[..7]
  }

  function CountMonth(rs: seq<Reporte>, mes: string): nat {
    if rs == [] then 0
    else CountMonth(rs[..|rs| - 1], mes) + (if Month(rs[|rs| - 1].fecha) == mes then 1 else 0)
  }

  /** The distinct months of the reports, ascending. */
  function Months(rs: seq<Reporte>): (r: seq<string>)
    ensures Ascending(r)
    ensures forall m :: m in r <==> exists i :: 0 <= i < |rs| && Month(rs[i].fecha) == m
  {
    if rs == [] then []
    else
      var init := rs[..|rs| - 1];
      var r := AddKey(Month(rs[|rs| - 1].fecha), Months(init));
      InitIndex(rs);
      r
  }

  /** One bar of the monthly chart. */
  datatype MonthCount = MonthCount(mes: string, cantidad: nat)

  function WithCounts(ms: seq<string>, rs: seq<Reporte>): (r: seq<MonthCount>)
    ensures |r| == |ms|
    ensures forall i :: 0 <= i < |ms| ==> r[i] == MonthCount(ms[i], CountMonth(rs, ms[i]))
  {
    if ms == [] then [] else [MonthCount(ms[0], CountMonth(rs, ms[0]))] + WithCounts(ms[1..], rs)
  }

  /** Lines 303-317: the six most recent months, newest first, then turned
      around: oldest of them first. */
  function EvolucionMensual(rs: seq<Reporte>): seq<MonthCount> {
    var ms := Months(rs);
    var n := if |ms| < 6 then |ms| else 6;
    WithCounts(ms[|ms| - n..], rs)
  }

  lemma {:induction false} CountMonthPositive(rs: seq<Reporte>, i: nat)
    requires i < |rs|
    ensures CountMonth(rs, Month(rs[i].fecha)) >= 1
  {
    if i < |rs| - 1 {
      CountMonthPositive(rs[..|rs| - 1], i);
    }
  }

  /** The chart has one bar per month up to six, in strictly ascending month
      order; each bar is a month of some report with its report count; and
      every month left out is older than every month shown. */
  lemma MonthlyChart(rs: seq<Reporte>)
    ensures var e := EvolucionMensual(rs);
            && |e| == (if |Months(rs)| < 6 then |Months(rs)| else 6)
            && (forall i, j :: 0 <= i < j < |e| ==> LexLess(e[i].mes, e[j].mes))
            && (forall i :: 0 <= i < |e| ==>
                  (exists k :: 0 <= k < |rs| && Month(rs[k].fecha) == e[i].mes)
                  && e[i].cantidad == CountMonth(rs, e[i].mes) && e[i].cantidad >= 1)
            && (forall k, i :: 0 <= k < |rs| && 0 <= i < |e| && Month(rs[k].fecha) !in Months(rs)[|Months(rs)| - |e|..]
                  ==> LexLess(Month(rs[k].fecha), e[i].mes))
  {
    MonthlyChartBars(rs);
    MonthlyChartRecent(rs);
  }

  lemma MonthlyChartBars(rs: seq<Reporte>)
    ensures var e := EvolucionMensual(rs);
            forall i :: 0 <= i < |e| ==>
              (exists k :: 0 <= k < |rs| && Month(rs[k].fecha) == e[i].mes)
              && e[i].cantidad == CountMonth(rs, e[i].mes) && e[i].cantidad >= 1
  {
    var ms := Months(rs);
    var n := if |ms| < 6 then |ms| else 6;
    var shown := ms[|ms| - n..];
    var e := EvolucionMensual(rs);
    forall i | 0 <= i < |e|
      ensures (exists k :: 0 <= k < |rs| && Month(rs[k].fecha) == e[i].mes)
              && e[i].cantidad == CountMonth(rs, e[i].mes) && e[i].cantidad >= 1
    {
      assert e[i].mes == shown[i] && shown[i] in ms;
      var k :| 0 <= k < |rs| && Month(rs[k].fecha) == e[i].mes;
      CountMonthPositive(rs, k);
    }
  }

  lemma MonthlyChartRecent(rs: seq<Reporte>)
    ensures var e := EvolucionMensual(rs);
            forall k, i :: 0 <= k < |rs| && 0 <= i < |e| && Month(rs[k].fecha) !in Months(rs)[|Months(rs)| - |e|..]
              ==> LexLess(Month(rs[k].fecha), e[i].mes)
  {
    var ms := Months(rs);
    var n := if |ms| < 6 then |ms| else 6;
    var shown := ms[|ms| - n..];
    var e := EvolucionMensual(rs);
    assert |e| == n;
    forall k, i | 0 <= k < |rs| && 0 <= i < |e| && Month(rs[k].fecha) !in shown
      ensures LexLess(Month(rs[k].fecha), e[i].mes)
    {
      var m := Month(rs[k].fecha);
      assert m in ms;
      InPrefixOrSuffix(ms, |ms| - n, m);
      assert e[i].mes == ms[|ms| - n..][i];
      AscendingSplit(ms, |ms| - n, m, e[i].mes);
    }
  }
}
