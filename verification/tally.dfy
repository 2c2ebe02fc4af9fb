/**
 * Running totals keyed by name, as built with `map[name] = (map[name] || 0) + x`
 * over a `Map` or a plain object: one row per name, in the order the names are
 * first credited.
 */
module Tally {
  import opened Seqs

  /** A name and the total credited to it. */
  datatype Row = Row(name: string, total: real)

  function NameOf(e: Row): string
  {
    e.name
  }

  function TotalOf(e: Row): real
  {
    e.total
  }

  function Names(es: seq<Row>): (r: seq<string>)
    ensures |r| == |es| && forall i :: 0 <= i < |es| ==> r[i] == es[i].name
  {
    seq(|es|, i requires 0 <= i < |es| => es[i].name)
  }

  /** The total recorded for `name`, or 0 when it has no row. */
  function TotalFor(es: seq<Row>, name: string): real
  {
    if |es| == 0 then 0.0
    else if es[0].name == name then es[0].total
    else TotalFor(es[1..], name)
  }

  /** `map[name] = (map[name] || 0) + t`: adds to the row for `name`, or appends one. */
  function Credit(es: seq<Row>, name: string, t: real): (r: seq<Row>)
    ensures Names(r) == if name in Names(es) then Names(es) else Names(es) + [name]
    ensures forall n :: TotalFor(r, n) == TotalFor(es, n) + (if n == name then t else 0.0)
  {
    if |es| == 0 then [Row(name, t)]
    else if es[0].name == name then
      assert Names(es)[0] == name;
      var r := [Row(name, es[0].total + t)] + es[1..];
      assert Names(r) == Names(es);
      r
    else
      var rest := Credit(es[1..], name, t);
      var r := [es[0]] + rest;
      assert Names(es) == [es[0].name] + Names(es[1..]);
      assert Names(r) == [es[0].name] + Names(rest);
      assert name in Names(es) <==> name in Names(es[1..]);
      r
  }

  /** Crediting keeps one row per name. */
  lemma {:induction false} DistinctNamesCredit(es: seq<Row>, name: string, t: real)
    requires DistinctBy(es, NameOf)
    ensures DistinctBy(Credit(es, name, t), NameOf)
  {
    var r := Credit(es, name, t);
    var ns := Names(es);
    forall i, j | 0 <= i < j < |r| ensures r[i].name != r[j].name {
      assert Names(r)[i] == r[i].name && Names(r)[j] == r[j].name;
      if j >= |es| {
        assert name !in ns;
        assert Names(r)[j] == name;
        assert Names(r)[i] == ns[i];
      } else {
        assert Names(r)[i] == ns[i] && Names(r)[j] == ns[j];
      }
    }
  }

  /** With one row per name, a row's total is the total recorded for its name. */
  lemma {:induction false} TotalForRow(es: seq<Row>, e: Row)
    requires DistinctBy(es, NameOf) && e in es
    ensures TotalFor(es, e.name) == e.total
    decreases |es|
  {
    if es[0] != e {
      assert e in es[1..];
      var j :| 0 <= j < |es[1..]| && es[1..][j] == e;
      assert es[j + 1] == e;
      assert es[0].name != e.name;
      assert DistinctBy(es[1..], NameOf);
      TotalForRow(es[1..], e);
    }
  }

  /** Crediting `t` adds `t` to the sum of all totals. */
  lemma {:induction false} SumCredit(es: seq<Row>, name: string, t: real)
    ensures SumOf(Credit(es, name, t), TotalOf) == SumOf(es, TotalOf) + t
    decreases |es|
  {
    var r := Credit(es, name, t);
    if |es| == 0 {
      SumOfSingleton(Row(name, t), TotalOf);
    } else {
      assert es == [es[0]] + es[1..];
      SumOfAppend([es[0]], es[1..], TotalOf);
      SumOfSingleton(es[0], TotalOf);
      if es[0].name == name {
        SumOfAppend([r[0]], es[1..], TotalOf);
        SumOfSingleton(r[0], TotalOf);
      } else {
        SumCredit(es[1..], name, t);
        SumOfAppend([es[0]], Credit(es[1..], name, t), TotalOf);
      }
    }
  }

  /** A row's name is among the names. */
  lemma {:induction false} RowNamed(es: seq<Row>, e: Row)
    requires e in es
    ensures e.name in Names(es)
  {
    var i :| 0 <= i < |es| && es[i] == e;
    assert Names(es)[i] == e.name;
  }
}
