/** The driver's time-series table (driver_state_t::timeseries_data in
    include/mist/driver.hpp:156-157) and the way a sample is accumulated
    into it (include/mist/driver.hpp:315-332): an ordered list of named
    columns, each a list of values. */
module TimeseriesTable {

  /** One named column of the table. */
  datatype Column = Column(name: string, values: seq<real>)

  /** The position of the first column called name, or |data| when there
      is none (what std::find_if returns). */
  function FindColumn(data: seq<Column>, name: string): (i: nat)
    ensures i <= |data|
    ensures i < |data| ==> data[i].name == name
    ensures forall j :: 0 <= j < i ==> data[j].name != name
  {
    if data == [] then 0
    else if data[0].name == name then 0
    else 1 + FindColumn(data[1..], name)
  }

  /** The find_if loop over the columns. */
  method FindColumnIndex(data: seq<Column>, name: string) returns (i: nat)
    ensures i == FindColumn(data, name)
  {
    i := 0;
    while i < |data| && data[i].name != name
      invariant 0 <= i <= |data|
      invariant forall j :: 0 <= j < i ==> data[j].name != name
    {
      i := i + 1;
    }
    FindColumnUnique(data, name, i);
  }

  /** The first match is determined by the two facts that define it. */
  lemma {:induction false} FindColumnUnique(data: seq<Column>, name: string, i: nat)
    requires i <= |data|
    requires i < |data| ==> data[i].name == name
    requires forall j :: 0 <= j < i ==> data[j].name != name
    ensures i == FindColumn(data, name)
  {
    var k := FindColumn(data, name);
    assert k <= i;
  }

  /** One (name, value) pair of a sample: appended to the column of that
      name, or, when there is none, a new one-value column at the end. */
  function AddValue(data: seq<Column>, name: string, value: real): seq<Column>
  {
    var i := FindColumn(data, name);
    if i < |data| then data[i := Column(name, data[i].values + [value])]
    else data + [Column(name, [value])]
  }

  /** accumulate_timeseries_sample: the pairs of the sample, in order. */
  function Accumulated(data: seq<Column>, sample: seq<(string, real)>): seq<Column>
    decreases |sample|
  {
    if sample == [] then data
    else
      var last := sample[|sample| - 1];
      AddValue(Accumulated(data, sample[..|sample| - 1]), last.0, last.1)
  }

  // ---------------------------------------------------------------------
  // The table read as a map from names to value lists
  // ---------------------------------------------------------------------

  /** The values stored under name; none when there is no such column. */
  function Lookup(data: seq<Column>, name: string): seq<real>
  {
    var i := FindColumn(data, name);
    if i < |data| then data[i].values else []
  }

  /** The values a sample carries under name, in order. */
  function ValuesNamed(sample: seq<(string, real)>, name: string): seq<real>
    decreases |sample|
  {
    if sample == [] then []
    else
      var last := sample[|sample| - 1];
      ValuesNamed(sample[..|sample| - 1], name) + (if last.0 == name then [last.1] else [])
  }

  function Names(data: seq<Column>): seq<string>
  {
    seq(|data|, i requires 0 <= i < |data| => data[i].name)
  }

  /** The number of values stored in the table. */
  function Total(data: seq<Column>): nat
    decreases |data|
  {
    if data == [] then 0 else Total(data[..|data| - 1]) + |data[|data| - 1].values|
  }

  ghost predicate DistinctNames(data: seq<Column>)
  {
    forall i, j :: 0 <= i < j < |data| ==> data[i].name != data[j].name
  }

  /** Adding a value appends it under its name and changes no other name's
      values. */
  lemma AddValueLookup(data: seq<Column>, name: string, value: real, other: string)
    ensures Lookup(AddValue(data, name, value), name) == Lookup(data, name) + [value]
    ensures other != name ==> Lookup(AddValue(data, name, value), other) == Lookup(data, other)
  {
    var i := FindColumn(data, name);
    var r := AddValue(data, name, value);
    FindColumnUnique(r, name, i);
    if other != name {
      var k := FindColumn(data, other);
      if k < |data| {
        FindColumnUnique(r, other, k);
      } else {
        FindColumnUnique(r, other, |r|);
      }
    }
  }

  /** The columns keep their names and their order; a new name adds one
      column at the end. */
  lemma AddValueNames(data: seq<Column>, name: string, value: real)
    ensures name in Names(data) ==> Names(AddValue(data, name, value)) == Names(data)
    ensures name !in Names(data) ==> Names(AddValue(data, name, value)) == Names(data) + [name]
  {
    var i := FindColumn(data, name);
    if name in Names(data) {
      var j :| 0 <= j < |data| && Names(data)[j] == name;
      assert i <= j;
    } else {
      assert forall j :: 0 <= j < |data| ==> Names(data)[j] == data[j].name;
      assert i == |data|;
      assert Names(data + [Column(name, [value])]) == Names(data) + [name];
    }
  }

  /** Adding a value stores exactly one more value. */
  lemma {:induction false} AddValueTotal(data: seq<Column>, name: string, value: real)
    ensures Total(AddValue(data, name, value)) == Total(data) + 1
  {
    var i := FindColumn(data, name);
    if i < |data| {
      TotalUpdate(data, i, Column(name, data[i].values + [value]));
    } else {
      assert (data + [Column(name, [value])])[..|data|] == data;
    }
  }

  lemma {:induction false} TotalUpdate(data: seq<Column>, i: nat, c: Column)
    requires i < |data|
    ensures Total(data[i := c]) == Total(data) - |data[i].values| + |c.values|
    decreases |data|
  {
    var n := |data| - 1;
    assert data[i := c][..n] == if i == n then data[..n] else data[..n][i := c];
    if i < n {
      TotalUpdate(data[..n], i, c);
    }
  }

  /** A table with distinct names keeps them distinct. */
  lemma AddValueDistinct(data: seq<Column>, name: string, value: real)
    requires DistinctNames(data)
    ensures DistinctNames(AddValue(data, name, value))
  {
    AddValueNames(data, name, value);
    var r := AddValue(data, name, value);
    assert forall i :: 0 <= i < |r| ==> r[i].name == Names(r)[i];
    assert forall i :: 0 <= i < |data| ==> data[i].name == Names(data)[i];
  }

  /** accumulate_timeseries_sample, read as a map: every name's values
      are extended by the values the sample carries under that name, in
      order. */
  lemma {:induction false} AccumulatedLookup(data: seq<Column>, sample: seq<(string, real)>, name: string)
    ensures Lookup(Accumulated(data, sample), name) == Lookup(data, name) + ValuesNamed(sample, name)
    decreases |sample|
  {
    if sample != [] {
      var init := sample[..|sample| - 1];
      var last := sample[|sample| - 1];
      AccumulatedLookup(data, init, name);
      AddValueLookup(Accumulated(data, init), last.0, last.1, name);
    }
  }

  /** The table grows by exactly as many values as the sample holds. */
  lemma {:induction false} AccumulatedTotal(data: seq<Column>, sample: seq<(string, real)>)
    ensures Total(Accumulated(data, sample)) == Total(data) + |sample|
    decreases |sample|
  {
    if sample != [] {
      var init := sample[..|sample| - 1];
      var last := sample[|sample| - 1];
      AccumulatedTotal(data, init);
      AddValueTotal(Accumulated(data, init), last.0, last.1);
    }
  }

  /** The existing columns keep their place: the old names are a prefix
      of the new ones. */
  lemma {:induction false} AccumulatedKeepsOrder(data: seq<Column>, sample: seq<(string, real)>)
    ensures |Accumulated(data, sample)| >= |data|
    ensures Names(Accumulated(data, sample))[..|data|] == Names(data)
    decreases |sample|
  {
    if sample != [] {
      var init := sample[..|sample| - 1];
      var last := sample[|sample| - 1];
      var before := Accumulated(data, init);
      AccumulatedKeepsOrder(data, init);
      AddValueNames(before, last.0, last.1);
      assert Names(Accumulated(data, sample))[..|before|] == Names(before);
      assert Names(before)[..|data|] == Names(data);
    }
  }

  lemma {:induction false} AccumulatedDistinct(data: seq<Column>, sample: seq<(string, real)>)
    requires DistinctNames(data)
    ensures DistinctNames(Accumulated(data, sample))
    decreases |sample|
  {
    if sample != [] {
      var init := sample[..|sample| - 1];
      var last := sample[|sample| - 1];
      AccumulatedDistinct(data, init);
      AddValueDistinct(Accumulated(data, init), last.0, last.1);
    }
  }

  /** A sample of two new names on an empty table, then one of them again. */
  lemma AccumulateExample()
    ensures Accumulated([], [("mass", 1.0), ("energy", 2.0)])
         == [Column("mass", [1.0]), Column("energy", [2.0])]
    ensures Accumulated([Column("mass", [1.0]), Column("energy", [2.0])], [("energy", 3.0)])
         == [Column("mass", [1.0]), Column("energy", [2.0, 3.0])]
  {
    var s := [("mass", 1.0), ("energy", 2.0)];
    assert s[..1] == [("mass", 1.0)];
    assert [("mass", 1.0)][..0] == [];
    assert Accumulated([], [("mass", 1.0)]) == [Column("mass", [1.0])];
    assert FindColumn([Column("mass", [1.0])], "energy") == 1;
    assert [("energy", 3.0)][..0] == [];
    assert FindColumn([Column("mass", [1.0]), Column("energy", [2.0])], "energy") == 1;
    assert [2.0] + [3.0] == [2.0, 3.0];
  }
}
