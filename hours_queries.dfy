/**
 * GET /hours/my-hours and GET /hours/summary: two fixed SQL queries over
 * `registros_horas`, specified as functions on the table's rows. Listing
 * keeps the caller's rows and orders them by `fecha DESC, created_at DESC`;
 * the summary groups the caller's rows by `DATE_FORMAT(fecha, '%Y-%m')` and
 * gives per month the sum of `horas` and the count, latest month first.
 */
module HoursQueries {
  import opened Wrappers
  import opened Http

  const ListErrorMsg := "Error obteniendo registros de horas"
  const SummaryErrorMsg := "Error obteniendo resumen de horas"

  /** A value of the DATE column `fecha`. */
  datatype Date = Date(year: int, month: int, day: int)

  /** `DATE_FORMAT(fecha, '%Y-%m')`; with four-digit years its text order is the
      order of (year, month). */
  datatype YearMonth = YearMonth(year: int, month: int)

  /** A row of `registros_horas` as the read queries see it. */
  datatype Entry = Entry(id: nat, empleadoId: nat, fecha: Date, horas: real, descripcion: string,
                         proyectoId: int, tareaId: Option<int>, estado: string, createdAt: int)

  /** A row of the listing: `SELECT id, fecha, horas AS horas_trabajadas, descripcion,
      proyecto_id, tarea_id, estado, created_at`. */
  datatype Listed = Listed(id: nat, fecha: Date, horasTrabajadas: real, descripcion: string,
                           proyectoId: int, tareaId: Option<int>, estado: string, createdAt: int)

  /** One row of the summary: `mes`, `SUM(horas)`, `COUNT(*)`. */
  datatype MonthTotal = MonthTotal(mes: YearMonth, totalHoras: real, totalRegistros: nat)

  predicate DateLess(a: Date, b: Date) {
    a.year < b.year || (a.year == b.year && (a.month < b.month || (a.month == b.month && a.day < b.day)))
  }

  function MonthOf(d: Date): YearMonth {
    YearMonth(d.year, d.month)
  }

  predicate MonthLess(a: YearMonth, b: YearMonth) {
    a.year < b.year || (a.year == b.year && a.month < b.month)
  }

  function Project(e: Entry): Listed {
    Listed(e.id, e.fecha, e.horas, e.descripcion, e.proyectoId, e.tareaId, e.estado, e.createdAt)
  }

  function ProjectAll(es: seq<Entry>): (r: seq<Listed>)
    ensures |r| == |es| && forall i :: 0 <= i < |es| ==> r[i] == Project(es[i])
  {
    if es == [] then [] else [Project(es[0])] + ProjectAll(es[1..])
  }

  /** `WHERE empleado_id = ?`: exactly the owner's rows, each as often as it occurs,
      in table order. */
  function Owned(rows: seq<Entry>, owner: nat): (r: seq<Entry>)
    ensures forall e :: e in r <==> e in rows && e.empleadoId == owner
    ensures forall e :: multiset(r)[e] == if e.empleadoId == owner then multiset(rows)[e] else 0
  {
    if rows == [] then []
    else
      var rest := Owned(rows[1..], owner);
      assert rows == [rows[0]] + rows[1..];
      if rows[0].empleadoId == owner then [rows[0]] + rest else rest
  }

  /** `a` may come before `b` under `ORDER BY fecha DESC, created_at DESC`. */
  predicate ListedFirst(a: Listed, b: Listed) {
    DateLess(b.fecha, a.fecha) || (a.fecha == b.fecha && a.createdAt >= b.createdAt)
  }

  predicate SortedDesc(s: seq<Listed>) {
    forall i, j :: 0 <= i < j < |s| ==> ListedFirst(s[i], s[j])
  }

  function InsertSorted(x: Listed, s: seq<Listed>): (r: seq<Listed>)
    requires SortedDesc(s)
    ensures SortedDesc(r) && multiset(r) == multiset(s) + multiset{x}
  {
    if s == [] then [x]
    else if ListedFirst(x, s[0]) then
      SortedCons(x, s);
      [x] + s
    else
      var rest := InsertSorted(x, s[1..]);
      assert s == [s[0]] + s[1..];
      assert forall y :: y in rest ==> ListedFirst(s[0], y) by {
        forall y | y in rest ensures ListedFirst(s[0], y) {
          assert y in multiset(rest);
          if y != x {
            var k :| 0 <= k < |s[1..]| && s[1..][k] == y;
            assert s[k + 1] == y;
          }
        }
      }
      SortedCons(s[0], rest);
      [s[0]] + rest
  }

  /** A row that may precede all of a sorted listing may be put in front of it. */
  lemma SortedCons(a: Listed, s: seq<Listed>)
    requires SortedDesc(s)
    requires forall y :: y in s ==> ListedFirst(a, y)
    ensures SortedDesc([a] + s)
  {
    var r := [a] + s;
    forall i, j | 0 <= i < j < |r| ensures ListedFirst(r[i], r[j]) {
      if i == 0 { assert r[j] == s[j - 1]; } else { assert r[i] == s[i - 1] && r[j] == s[j - 1]; }
    }
  }

  function SortDesc(s: seq<Listed>): (r: seq<Listed>)
    ensures SortedDesc(r) && multiset(r) == multiset(s)
  {
    if s == [] then []
    else
      assert s == [s[0]] + s[1..];
      InsertSorted(s[0], SortDesc(s[1..]))
  }

  /** The listing: the caller's rows, projected, newest date first and, within a
      date, newest creation first. */
  function MyHours(rows: seq<Entry>, owner: nat): (r: seq<Listed>)
    ensures SortedDesc(r)
    ensures multiset(r) == multiset(ProjectAll(Owned(rows, owner)))
    ensures |r| == |Owned(rows, owner)|
  {
    var p := ProjectAll(Owned(rows, owner));
    var r := SortDesc(p);
    assert |r| == |multiset(r)| == |multiset(p)| == |p|;
    r
  }

  /** A listed row is exactly a projection of one of the caller's rows. */
  lemma MyHoursMembers(rows: seq<Entry>, owner: nat, x: Listed)
    ensures x in MyHours(rows, owner) <==> exists i :: 0 <= i < |rows| && rows[i].empleadoId == owner && Project(rows[i]) == x
  {
    var own := Owned(rows, owner);
    var p := ProjectAll(own);
    assert x in MyHours(rows, owner) <==> x in p by {
      assert x in MyHours(rows, owner) <==> x in multiset(MyHours(rows, owner));
    }
    if x in p {
      var k :| 0 <= k < |p| && p[k] == x;
      assert own[k] in own;
      var i :| 0 <= i < |rows| && rows[i] == own[k];
    }
    if i :| 0 <= i < |rows| && rows[i].empleadoId == owner && Project(rows[i]) == x {
      assert rows[i] in own;
      var k :| 0 <= k < |own| && own[k] == rows[i];
      assert p[k] == x;
    }
  }

  /** GET /my-hours: the listing, or 500 on a query error (the error text is not sent). */
  function MyHoursReply(rows: seq<Entry>, fault: Option<string>, owner: nat): (r: Result<Listed>)
    ensures fault.Some? <==> r.Failed?
    ensures r.Failed? ==> r.reply == Reply(500, Message(ListErrorMsg))
    ensures r.Rows? ==> SortedDesc(r.rows) && multiset(r.rows) == multiset(ProjectAll(Owned(rows, owner)))
  {
    if fault.Some? then Failed(Reply(500, Message(ListErrorMsg))) else Rows(MyHours(rows, owner))
  }

  /** A read handler's outcome: the JSON array sent, or an error reply. */
  datatype Result<T> = Rows(rows: seq<T>) | Failed(reply: Reply)

  function SumHoras(es: seq<Entry>): real {
    if es == [] then 0.0 else es[0].horas + SumHoras(es[1..])
  }

  function InMonth(es: seq<Entry>, m: YearMonth): (r: seq<Entry>)
    ensures forall e :: e in r <==> e in es && MonthOf(e.fecha) == m
  {
    if es == [] then []
    else if MonthOf(es[0].fecha) == m then [es[0]] + InMonth(es[1..], m)
    else InMonth(es[1..], m)
  }

  function OutsideMonth(es: seq<Entry>, m: YearMonth): (r: seq<Entry>)
    ensures forall e :: e in r <==> e in es && MonthOf(e.fecha) != m
    ensures |InMonth(es, m)| + |r| == |es|
  {
    if es == [] then []
    else if MonthOf(es[0].fecha) == m then OutsideMonth(es[1..], m)
    else [es[0]] + OutsideMonth(es[1..], m)
  }

  /** Rows of another month are untouched by removing month `m`. */
  lemma {:induction false} InMonthOutside(es: seq<Entry>, m: YearMonth, k: YearMonth)
    requires k != m
    ensures InMonth(OutsideMonth(es, m), k) == InMonth(es, k)
  {
    if es != [] {
      InMonthOutside(es[1..], m, k);
      if MonthOf(es[0].fecha) != m {
        assert OutsideMonth(es, m) == [es[0]] + OutsideMonth(es[1..], m);
        assert (([es[0]] + OutsideMonth(es[1..], m))[1..]) == OutsideMonth(es[1..], m);
      }
    }
  }

  /** The latest month among some rows. */
  function LatestMonth(es: seq<Entry>): (m: YearMonth)
    requires es != []
    ensures exists e :: e in es && MonthOf(e.fecha) == m
    ensures forall e :: e in es ==> !MonthLess(m, MonthOf(e.fecha))
  {
    if |es| == 1 then MonthOf(es[0].fecha)
    else
      var m := LatestMonth(es[1..]);
      assert es == [es[0]] + es[1..];
      if MonthLess(m, MonthOf(es[0].fecha)) then MonthOf(es[0].fecha) else m
  }

  function MonthsOf(r: seq<MonthTotal>): set<YearMonth> {
    set i | 0 <= i < |r| :: r[i].mes
  }

  function Months(es: seq<Entry>): set<YearMonth> {
    set e | e in es :: MonthOf(e.fecha)
  }

  /** Strictly descending months: one row per month, latest first. */
  predicate DescendingMonths(r: seq<MonthTotal>) {
    forall i, j :: 0 <= i < j < |r| ==> MonthLess(r[j].mes, r[i].mes)
  }

  /** Each row's sum and count are over exactly the rows of its month. */
  predicate Totalled(es: seq<Entry>, r: seq<MonthTotal>) {
    forall i :: 0 <= i < |r| ==>
      r[i].totalHoras == SumHoras(InMonth(es, r[i].mes)) && r[i].totalRegistros == |InMonth(es, r[i].mes)|
  }

  lemma MonthsOfCons(t: MonthTotal, rest: seq<MonthTotal>)
    ensures MonthsOf([t] + rest) == {t.mes} + MonthsOf(rest)
  {
    var r := [t] + rest;
    assert r[0].mes == t.mes;
    forall k | k in MonthsOf(r) ensures k in {t.mes} + MonthsOf(rest) {
      var i :| 0 <= i < |r| && r[i].mes == k;
      if i > 0 { assert rest[i - 1].mes == k; }
    }
    forall k | k in MonthsOf(rest) ensures k in MonthsOf(r) {
      var i :| 0 <= i < |rest| && rest[i].mes == k;
      assert r[i + 1].mes == k;
    }
  }

  lemma MonthsSplit(es: seq<Entry>, m: YearMonth)
    requires m in Months(es)
    ensures Months(es) == {m} + Months(OutsideMonth(es, m))
  {
    var others := OutsideMonth(es, m);
    forall k | k in Months(es) ensures k in {m} + Months(others) {
      var e :| e in es && MonthOf(e.fecha) == k;
      if k != m { assert e in others; }
    }
  }

  /** Every month left after removing the latest one is earlier than it. */
  lemma SummarizeOrder(es: seq<Entry>, m: YearMonth, head: MonthTotal, rest: seq<MonthTotal>)
    requires es != [] && m == LatestMonth(es) && head.mes == m
    requires MonthsOf(rest) == Months(OutsideMonth(es, m))
    requires DescendingMonths(rest)
    ensures DescendingMonths([head] + rest)
  {
    var r := [head] + rest;
    forall j | 0 <= j < |rest| ensures MonthLess(rest[j].mes, m) {
      assert rest[j].mes in MonthsOf(rest);
      var e :| e in OutsideMonth(es, m) && MonthOf(e.fecha) == rest[j].mes;
    }
    forall i, j | 0 <= i < j < |r| ensures MonthLess(r[j].mes, r[i].mes) {
      assert r[j] == rest[j - 1];
      if i > 0 { assert r[i] == rest[i - 1]; }
    }
  }

  /** The totals of the other months do not change when month `m` is removed. */
  lemma SummarizeTotals(es: seq<Entry>, m: YearMonth, rest: seq<MonthTotal>)
    requires MonthsOf(rest) == Months(OutsideMonth(es, m))
    requires Totalled(OutsideMonth(es, m), rest)
    ensures Totalled(es, [MonthTotal(m, SumHoras(InMonth(es, m)), |InMonth(es, m)|)] + rest)
  {
    var r := [MonthTotal(m, SumHoras(InMonth(es, m)), |InMonth(es, m)|)] + rest;
    forall i | 0 <= i < |r|
      ensures r[i].totalHoras == SumHoras(InMonth(es, r[i].mes)) && r[i].totalRegistros == |InMonth(es, r[i].mes)|
    {
      if i > 0 {
        assert r[i] == rest[i - 1];
        assert rest[i - 1].mes in MonthsOf(rest);
        InMonthOutside(es, m, rest[i - 1].mes);
      }
    }
  }

  lemma LatestMonthPresent(es: seq<Entry>)
    requires es != []
    ensures LatestMonth(es) in Months(es) && |OutsideMonth(es, LatestMonth(es))| < |es|
  {
    var m := LatestMonth(es);
    var e :| e in es && MonthOf(e.fecha) == m;
    assert e in InMonth(es, m);
  }

  /** `GROUP BY mes ORDER BY mes DESC` with `SUM(horas)` and `COUNT(*)`, written
      as: take the latest month, total it, and summarise the other months. */
  function Summarize(es: seq<Entry>): seq<MonthTotal>
    decreases |es|
  {
    if es == [] then []
    else
      var m := LatestMonth(es);
      LatestMonthPresent(es);
      [MonthTotal(m, SumHoras(InMonth(es, m)), |InMonth(es, m)|)] + Summarize(OutsideMonth(es, m))
  }

  /** The summary has one row per month of the rows, latest month first, and
      each row's sum and count are over exactly the rows of its month. */
  lemma {:induction false} SummarizeCorrect(es: seq<Entry>)
    ensures DescendingMonths(Summarize(es))
    ensures MonthsOf(Summarize(es)) == Months(es)
    ensures Totalled(es, Summarize(es))
    decreases |es|
  {
    if es == [] {
      assert MonthsOf([]) == {};
    } else {
      var m := LatestMonth(es);
      LatestMonthPresent(es);
      var head := MonthTotal(m, SumHoras(InMonth(es, m)), |InMonth(es, m)|);
      var rest := Summarize(OutsideMonth(es, m));
      assert Summarize(es) == [head] + rest;
      SummarizeCorrect(OutsideMonth(es, m));
      MonthsOfCons(head, rest);
      MonthsSplit(es, m);
      SummarizeOrder(es, m, head, rest);
      SummarizeTotals(es, m, rest);
    }
  }

  /** The summary of the caller's rows. */
  function Summary(rows: seq<Entry>, owner: nat): (r: seq<MonthTotal>)
    ensures forall i, j :: 0 <= i < j < |r| ==> MonthLess(r[j].mes, r[i].mes)
    ensures MonthsOf(r) == Months(Owned(rows, owner))
    ensures forall i :: 0 <= i < |r| ==>
              var own := InMonth(Owned(rows, owner), r[i].mes);
              r[i].totalHoras == SumHoras(own) && r[i].totalRegistros == |own|
    ensures r == [] <==> forall e :: e in rows ==> e.empleadoId != owner
  {
    var own := Owned(rows, owner);
    var r := Summarize(own);
    SummarizeCorrect(own);
    assert r == [] <==> own == [] by {
      if own != [] { assert MonthOf(own[0].fecha) in Months(own); }
      if r != [] { assert r[0].mes in MonthsOf(r); }
    }
    r
  }

  /** GET /summary: the summary, or 500 on a query error (the error text is not sent). */
  function SummaryReply(rows: seq<Entry>, fault: Option<string>, owner: nat): (r: Result<MonthTotal>)
    ensures fault.Some? <==> r.Failed?
    ensures r.Failed? ==> r.reply == Reply(500, Message(SummaryErrorMsg))
    ensures r.Rows? ==> r.rows == Summary(rows, owner)
  {
    if fault.Some? then Failed(Reply(500, Message(SummaryErrorMsg))) else Rows(Summary(rows, owner))
  }

  const June1 := Entry(1, 7, Date(2024, 6, 1), 5.0, "", 1, None, "activo", 100)
  const June15 := Entry(2, 7, Date(2024, 6, 15), 3.0, "", 1, None, "activo", 200)
  const June20Other := Entry(3, 9, Date(2024, 6, 20), 4.0, "", 1, None, "activo", 250)
  const July1 := Entry(4, 7, Date(2024, 7, 1), 2.0, "", 1, None, "activo", 300)

  lemma SummaryExampleOwned()
    ensures Owned([June1, June15, June20Other, July1], 7) == [June1, June15, July1]
  {
    assert Owned([July1], 7) == [July1];
    assert Owned([June20Other, July1], 7) == [July1];
    assert Owned([June15, June20Other, July1], 7) == [June15, July1];
  }

  lemma SummaryExampleJune()
    ensures Summarize([June1, June15]) == [MonthTotal(YearMonth(2024, 6), 8.0, 2)]
  {
    var jun := YearMonth(2024, 6);
    assert LatestMonth([June1, June15]) == jun;
    assert InMonth([June1, June15], jun) == [June1, June15] by {
      assert InMonth([June15], jun) == [June15];
    }
    assert OutsideMonth([June1, June15], jun) == [] by {
      assert OutsideMonth([June15], jun) == [];
    }
    assert SumHoras([June1, June15]) == 8.0 by {
      assert SumHoras([June15]) == 3.0;
    }
    assert Summarize([June1, June15]) == [MonthTotal(jun, 8.0, 2)] + Summarize([]);
  }

  lemma SummaryExampleJuly()
    ensures Summarize([June1, June15, July1]) == [MonthTotal(YearMonth(2024, 7), 2.0, 1), MonthTotal(YearMonth(2024, 6), 8.0, 2)]
  {
    SummaryExampleJune();
    var own := [June1, June15, July1];
    var jul := YearMonth(2024, 7);
    assert LatestMonth(own) == jul by {
      assert LatestMonth([July1]) == jul;
      assert LatestMonth([June15, July1]) == jul;
    }
    assert InMonth(own, jul) == [July1] by {
      assert InMonth([July1], jul) == [July1];
      assert InMonth([June15, July1], jul) == [July1];
    }
    assert OutsideMonth(own, jul) == [June1, June15] by {
      assert OutsideMonth([July1], jul) == [];
      assert OutsideMonth([June15, July1], jul) == [June15];
    }
    assert SumHoras([July1]) == 2.0;
  }

  /** Three entries over two months summarise to July (2 h, one entry) and then
      June (8 h, two entries); another employee's entry is not counted. */
  lemma SummaryExample()
    ensures Summary([June1, June15, June20Other, July1], 7)
         == [MonthTotal(YearMonth(2024, 7), 2.0, 1), MonthTotal(YearMonth(2024, 6), 8.0, 2)]
  {
    var own := [June1, June15, July1];
    assert Summary([June1, June15, June20Other, July1], 7) == Summarize(own) by {
      SummaryExampleOwned();
    }
    SummaryExampleJuly();
  }

  /** Two entries logged on the same date are listed newest-created first, and
      another employee's entry is left out. */
  lemma MyHoursExample()
    ensures var a := Entry(1, 7, Date(2024, 6, 3), 4.0, "", 1, None, "activo", 100);
            var b := Entry(2, 7, Date(2024, 6, 3), 3.5, "", 1, None, "activo", 200);
            var c := Entry(3, 9, Date(2024, 6, 4), 8.0, "", 1, None, "activo", 300);
            MyHours([a, b, c], 7) == [Project(b), Project(a)]
  {
  }
}
