/**
 * The employee's hours list screen: the rows it was given, the per-row and
 * summary totals it shows, and the state changes made by loading the list and
 * by deleting one row. Component state is a class whose fields are the three
 * `useState` hooks; the calls into the hours service become outcome parameters.
 */
module HoursList {
  import opened Wrappers

  const LoadErrorMsg := "Error al cargar las horas"
  const DeleteErrorMsg := "Error al eliminar el registro"

  /** A row as the component reads it: `id`, `fecha`, `horas_normales`,
      `horas_extras`, `descripcion`. */
  datatype ListEntry = ListEntry(id: int, fecha: string, horasNormales: real, horasExtras: real, descripcion: string)

  /** How an awaited service call settled. */
  datatype Outcome<T> = Resolved(value: T) | Rejected

  /** `calculateTotal(entry)`. */
  function CalculateTotal(e: ListEntry): real {
    e.horasNormales + e.horasExtras
  }

  function Normales(e: ListEntry): real {
    e.horasNormales
  }

  function Extras(e: ListEntry): real {
    e.horasExtras
  }

  /** `s.reduce((sum, entry) => sum + f(entry), 0)`: a left fold from 0. */
  function Reduce(s: seq<ListEntry>, f: ListEntry -> real): real {
    if s == [] then 0.0 else Reduce(s[..|s| - 1], f) + f(s[|s| - 1])
  }

  /** "Total Horas Normales", "Total Horas Extras" and "Total General". */
  function SumNormales(s: seq<ListEntry>): real {
    Reduce(s, Normales)
  }

  function SumExtras(s: seq<ListEntry>): real {
    Reduce(s, Extras)
  }

  function SumTotals(s: seq<ListEntry>): real {
    Reduce(s, CalculateTotal)
  }

  /** A fold of a pointwise sum is the sum of the two folds. */
  lemma {:induction false} ReduceAdd(s: seq<ListEntry>, f: ListEntry -> real, g: ListEntry -> real, h: ListEntry -> real)
    requires forall e :: h(e) == f(e) + g(e)
    ensures Reduce(s, h) == Reduce(s, f) + Reduce(s, g)
  {
    if s != [] {
      ReduceAdd(s[..|s| - 1], f, g, h);
    }
  }

  /** The fold over two lists one after the other adds up. */
  lemma {:induction false} ReduceAppend(a: seq<ListEntry>, b: seq<ListEntry>, f: ListEntry -> real)
    ensures Reduce(a + b, f) == Reduce(a, f) + Reduce(b, f)
  {
    if b == [] {
      assert a + b == a;
    } else {
      assert (a + b)[..|a + b| - 1] == a + b[..|b| - 1];
      ReduceAppend(a, b[..|b| - 1], f);
    }
  }

  /** The fold of a list given head first. */
  lemma ReduceCons(x: ListEntry, s: seq<ListEntry>, f: ListEntry -> real)
    ensures Reduce([x] + s, f) == f(x) + Reduce(s, f)
  {
    ReduceAppend([x], s, f);
    assert [x][..0] == [];
  }

  /** "Total General" is "Total Horas Normales" plus "Total Horas Extras". */
  lemma TotalGeneralSplits(s: seq<ListEntry>)
    ensures SumTotals(s) == SumNormales(s) + SumExtras(s)
  {
    ReduceAdd(s, Normales, Extras, CalculateTotal);
  }

  /** With no rows every total is 0. */
  lemma EmptyTotals()
    ensures SumNormales([]) == 0.0 && SumExtras([]) == 0.0 && SumTotals([]) == 0.0
  {
  }

  /** `prev.filter(hour => hour.id !== id)`. */
  function RemoveId(s: seq<ListEntry>, id: int): (r: seq<ListEntry>)
    ensures forall e :: e in r <==> e in s && e.id != id
    ensures forall e :: multiset(r)[e] == if e.id != id then multiset(s)[e] else 0
    ensures |r| <= |s|
  {
    if s == [] then []
    else
      assert s == [s[0]] + s[1..];
      if s[0].id != id then [s[0]] + RemoveId(s[1..], id) else RemoveId(s[1..], id)
  }

  /** The rows carrying `id`, in list order. */
  function WithId(s: seq<ListEntry>, id: int): (r: seq<ListEntry>)
    ensures forall e :: e in r <==> e in s && e.id == id
    ensures |RemoveId(s, id)| + |r| == |s|
  {
    if s == [] then []
    else if s[0].id == id then [s[0]] + WithId(s[1..], id) else WithId(s[1..], id)
  }

  /** Filtering works piece by piece, so the rows kept stay in their order. */
  lemma {:induction false} RemoveIdAppend(a: seq<ListEntry>, b: seq<ListEntry>, id: int)
    ensures RemoveId(a + b, id) == RemoveId(a, id) + RemoveId(b, id)
  {
    if a == [] {
      assert a + b == b;
    } else {
      assert (a + b)[0] == a[0] && (a + b)[1..] == a[1..] + b;
      RemoveIdAppend(a[1..], b, id);
    }
  }

  /** A list without `id` is left exactly as it was. */
  lemma {:induction false} RemoveAbsentId(s: seq<ListEntry>, id: int)
    requires forall e :: e in s ==> e.id != id
    ensures RemoveId(s, id) == s
  {
    if s != [] {
      assert s[0] in s;
      assert forall e :: e in s[1..] ==> e in s;
      RemoveAbsentId(s[1..], id);
    }
  }

  /** Deleting the same id twice is deleting it once. */
  lemma RemoveIdIdempotent(s: seq<ListEntry>, id: int)
    ensures RemoveId(RemoveId(s, id), id) == RemoveId(s, id)
  {
    RemoveAbsentId(RemoveId(s, id), id);
  }

  /** Each total before a delete is the total after it plus that of the rows removed. */
  lemma {:induction false} RemoveIdTotals(s: seq<ListEntry>, id: int, f: ListEntry -> real)
    ensures Reduce(s, f) == Reduce(RemoveId(s, id), f) + Reduce(WithId(s, id), f)
  {
    if s != [] {
      assert s == [s[0]] + s[1..];
      RemoveIdTotals(s[1..], id, f);
      ReduceCons(s[0], s[1..], f);
      if s[0].id != id {
        ReduceCons(s[0], RemoveId(s[1..], id), f);
      } else {
        ReduceCons(s[0], WithId(s[1..], id), f);
      }
    }
  }

  /** The component's state: `hours`, `loading` and `error`. */
  datatype View = View(hours: seq<ListEntry>, loading: bool, error: string)

  const Initial := View([], true, "")

  /** `fetchHours`: the list on success, the load error otherwise, and the
      loading flag cleared either way. */
  function Fetched(v: View, data: Outcome<seq<ListEntry>>): (w: View)
    ensures !w.loading
    ensures data.Resolved? ==> w.hours == data.value && w.error == v.error
    ensures data.Rejected? ==> w.hours == v.hours && w.error == LoadErrorMsg
  {
    match data
    case Resolved(rows) => v.(hours := rows, loading := false)
    case Rejected => v.(loading := false, error := LoadErrorMsg)
  }

  /** The first load: the rows fetched and no error, or an empty list and the
      load error; the screen stops showing "Cargando registros..." either way. */
  lemma FirstLoad(data: Outcome<seq<ListEntry>>)
    ensures !Fetched(Initial, data).loading
    ensures data.Resolved? <==> Fetched(Initial, data).error == ""
    ensures data.Resolved? ==> Fetched(Initial, data).hours == data.value
    ensures data.Rejected? ==> Fetched(Initial, data).hours == [] && Fetched(Initial, data).error == LoadErrorMsg
  {
  }

  /** `handleDelete(id)`: the new state, and the id passed to `deleteHours`
      if it was called. */
  function Deleted(v: View, id: int, confirmed: bool, result: Outcome<()>): (r: (View, Option<int>))
    ensures !confirmed <==> r.1.None?
    ensures !confirmed ==> r.0 == v
    ensures confirmed ==> r.1 == Some(id) && r.0.loading == v.loading
    ensures confirmed && result.Resolved? ==>
              && r.0.error == v.error
              && (forall e :: e in r.0.hours <==> e in v.hours && e.id != id)
              && (forall e :: multiset(r.0.hours)[e] == if e.id != id then multiset(v.hours)[e] else 0)
    ensures confirmed && result.Rejected? ==> r.0.hours == v.hours && r.0.error == DeleteErrorMsg
  {
    if !confirmed then (v, None)
    else
      match result
      case Resolved(_) => (v.(hours := RemoveId(v.hours, id)), Some(id))
      case Rejected => (v.(error := DeleteErrorMsg), Some(id))
  }

  /** A successful delete keeps the other rows in their order: deleting from a
      list split in two is deleting from each part. */
  lemma DeleteKeepsOrder(v: View, id: int, a: seq<ListEntry>, b: seq<ListEntry>)
    requires v.hours == a + b
    ensures Deleted(v, id, true, Resolved(())).0.hours == RemoveId(a, id) + RemoveId(b, id)
  {
    RemoveIdAppend(a, b, id);
  }

  /** Deleting an id the list does not hold changes nothing but still calls the service. */
  lemma DeleteAbsent(v: View, id: int)
    requires forall e :: e in v.hours ==> e.id != id
    ensures Deleted(v, id, true, Resolved(())) == (v, Some(id))
  {
    RemoveAbsentId(v.hours, id);
  }

  const MockFirst := ListEntry(1, "2024-06-01", 8.0, 2.0, "Trabajo normal")
  const MockSecond := ListEntry(2, "2024-06-02", 7.0, 1.0, "")

  /** The row {8, 2} totals 10. */
  lemma CalculateTotalExample()
    ensures CalculateTotal(MockFirst) == 10.0 && SumTotals([MockFirst]) == 10.0
  {
    ReduceCons(MockFirst, [], CalculateTotal);
    assert [MockFirst] + [] == [MockFirst];
  }

  /** The two sample rows total 15 normal, 3 extra and 18 overall. */
  lemma SummaryTotalsExample()
    ensures SumNormales([MockFirst, MockSecond]) == 15.0
    ensures SumExtras([MockFirst, MockSecond]) == 3.0
    ensures SumTotals([MockFirst, MockSecond]) == 18.0
  {
    var s := [MockFirst, MockSecond];
    assert s == [MockFirst] + [MockSecond] && [MockSecond] == [MockSecond] + [];
    ReduceCons(MockFirst, [MockSecond], Normales);
    ReduceCons(MockSecond, [], Normales);
    ReduceCons(MockFirst, [MockSecond], Extras);
    ReduceCons(MockSecond, [], Extras);
    TotalGeneralSplits(s);
  }

  /** Confirming the delete of row 1 calls the service with 1 and leaves only row 2;
      cancelling calls nothing and leaves both; a failed delete keeps both and
      shows the delete error. */
  lemma DeleteExample()
    ensures var v := View([MockFirst, MockSecond], false, "");
            && Deleted(v, 1, true, Resolved(())) == (v.(hours := [MockSecond]), Some(1))
            && Deleted(v, 1, false, Resolved(())) == (v, None)
            && Deleted(v, 1, true, Rejected) == (v.(error := DeleteErrorMsg), Some(1))
  {
    var s := [MockFirst, MockSecond];
    assert RemoveId(s, 1) == [MockSecond] by {
      assert s[1..] == [MockSecond] && [MockSecond][1..] == [];
      assert RemoveId([MockSecond], 1) == [MockSecond] + RemoveId([], 1);
    }
  }

  /** The component's state hooks. */
  class HoursListState {
    var hours: seq<ListEntry>
    var loading: bool
    var error: string

    function State(): View
      reads this
    {
      View(hours, loading, error)
    }

    /** `useState([])`, `useState(true)`, `useState('')`. */
    constructor ()
      ensures State() == Initial
    {
      hours := [];
      loading := true;
      error := "";
    }

    /** The effect run once on mount: `data` is how `getMyHours()` settled. */
    method FetchHours(data: Outcome<seq<ListEntry>>)
      modifies this
      ensures State() == Fetched(old(State()), data)
    {
      if data.Resolved? {
        hours := data.value;
      } else {
        error := LoadErrorMsg;
      }
      loading := false;
    }

    /** `confirmed` is the answer to `window.confirm`; `result` is how
        `deleteHours(id)` settles when it is called. Returns the id the
        service was called with, if it was called. */
    method HandleDelete(id: int, confirmed: bool, result: Outcome<()>) returns (call: Option<int>)
      modifies this
      ensures (State(), call) == Deleted(old(State()), id, confirmed, result)
    {
      if !confirmed {
        return None;
      }
      call := Some(id);
      if result.Resolved? {
        hours := RemoveId(hours, id);
      } else {
        error := DeleteErrorMsg;
      }
    }
  }
}
