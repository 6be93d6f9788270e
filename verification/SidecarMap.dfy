/** A checksum file as a map from names, in any case, to values. */
module SidecarMap {
  import opened Bytes
  import opened Sidecar

  // ---------- looking up ----------

  /** The value `Get` ends with: the last entry of that name wins; none gives the empty text. */
  function Lookup(values: seq<Entry>, name: Text): Text {
    if values == [] then []
    else
      var n := |values| - 1;
      if SameName(values[n].name, name) then values[n].value else Lookup(values[..n], name)
  }

  /** The loop of `Get`. */
  method Find(values: seq<Entry>, requested: Text) returns (value: Text)
    ensures value == Lookup(values, requested)
  {
    value := [];
    var iter := 0;
    while iter < |values|
      invariant iter <= |values| && value == Lookup(values[..iter], requested)
    {
      assert values[..iter + 1][..iter] == values[..iter];
      if SameName(values[iter].name, requested) {
        value := values[iter].value;
      }
      iter := iter + 1;
    }
    assert values[..iter] == values;
  }

  predicate Names(values: seq<Entry>, name: Text) {
    exists i :: 0 <= i < |values| && SameName(values[i].name, name)
  }

  /** The value of a name is that of its last entry, in any case; a name without an entry has none. */
  lemma {:induction false} LookupIs(values: seq<Entry>, name: Text)
    ensures !Names(values, name) ==> Lookup(values, name) == []
    ensures Names(values, name) ==>
      exists i :: 0 <= i < |values| && LastNamed(values, name, i) && Lookup(values, name) == values[i].value
    decreases |values|
  {
    hide SameName;
    if values != [] {
      var n := |values| - 1;
      LookupIs(values[..n], name);
      if SameName(values[n].name, name) {
        assert LastNamed(values, name, n);
      } else if Names(values, name) {
        var j :| 0 <= j < |values| && SameName(values[j].name, name);
        assert SameName(values[..n][j].name, name);
        var i :| 0 <= i < n && LastNamed(values[..n], name, i) && Lookup(values[..n], name) == values[..n][i].value;
        assert LastNamed(values, name, i) by {
          assert forall k :: i < k < n ==> values[k] == values[..n][k];
        }
      }
    }
  }

  ghost predicate LastNamed(values: seq<Entry>, name: Text, i: nat)
    requires i < |values|
  {
    SameName(values[i].name, name) && forall k :: i < k < |values| ==> !SameName(values[k].name, name)
  }

  predicate NamesWith(values: seq<Entry>, name: Text, value: Text) {
    exists i :: 0 <= i < |values| && SameName(values[i].name, name) && values[i].value == value
  }

  /** No two entries have the same name. */
  ghost predicate Distinct(values: seq<Entry>) {
    forall i, j :: 0 <= i < j < |values| ==> !SameName(values[i].name, values[j].name)
  }

  // ---------- updating ----------

  /** What the loop of `Set` makes of one entry. */
  function Overwritten(e: Entry, name: Text, value: Text): Entry {
    if SameName(e.name, name) then e.(value := value) else e
  }

  function Overwrite(values: seq<Entry>, name: Text, value: Text): (after: seq<Entry>)
    ensures |after| == |values|
    ensures forall i :: 0 <= i < |values| ==> after[i] == Overwritten(values[i], name, value)
  {
    seq(|values|, i requires 0 <= i < |values| => Overwritten(values[i], name, value))
  }

  /** The list `Set` would write. */
  function Upsert(values: seq<Entry>, name: Text, value: Text): seq<Entry> {
    if Names(values, name) then Overwrite(values, name, value)
    else values + [Entry(UpperText(name), value)]
  }

  /** The updating loop of `Set`; `changed` is the flag that decides whether the file is written. */
  method Update(values: seq<Entry>, name: Text, value: Text) returns (after: seq<Entry>, changed: bool)
    ensures after == Upsert(values, name, value)
    ensures changed == !NamesWith(values, name, value)
  {
    var checksumName := UpperText(name);
    var overwroteValue := false;
    changed := true;
    after := values;
    var iter := 0;
    while iter < |values|
      invariant iter <= |values| == |after|
      invariant forall i :: 0 <= i < iter ==> after[i] == Overwritten(values[i], name, value)
      invariant forall i :: iter <= i < |values| ==> after[i] == values[i]
      invariant overwroteValue == Names(values[..iter], name)
      invariant changed == !NamesWith(values[..iter], name, value)
    {
      hide UpperText;
      assert values[..iter + 1] == values[..iter] + [values[iter]];
      OneMore(values[..iter], values[iter], name, value);
      var curChecksumName := UpperText(after[iter].name);
      if curChecksumName == checksumName {
        if after[iter].value == value {
          changed := false;
        } else {
          after := after[iter := after[iter].(value := value)];
        }
        overwroteValue := true;
      }
      iter := iter + 1;
    }
    assert values[..iter] == values;
    if !overwroteValue {
      NotOverwritten(values, name, value);
      assert after == values;
      after := after + [Entry(checksumName, value)];
    } else {
      assert after == Overwrite(values, name, value);
    }
  }

  lemma {:induction false} OneMore(values: seq<Entry>, e: Entry, name: Text, value: Text)
    ensures Names(values + [e], name) == (Names(values, name) || SameName(e.name, name))
    ensures NamesWith(values + [e], name, value)
         == (NamesWith(values, name, value) || (SameName(e.name, name) && e.value == value))
  {
    hide SameName;
    var more := values + [e];
    assert more[|values|] == e;
    assert forall i :: 0 <= i < |values| ==> more[i] == values[i];
  }

  lemma {:induction false} NotOverwritten(values: seq<Entry>, name: Text, value: Text)
    requires !Names(values, name)
    ensures Overwrite(values, name, value) == values
  {
  }

  // ---------- what an update does to look-ups ----------

  lemma {:induction false} LookupOther(values: seq<Entry>, name: Text, value: Text, other: Text)
    requires !SameName(name, other)
    ensures Lookup(Overwrite(values, name, value), other) == Lookup(values, other)
  {
    if values != [] {
      var n := |values| - 1;
      assert Overwrite(values, name, value)[..n] == Overwrite(values[..n], name, value);
      LookupOther(values[..n], name, value, other);
    }
  }

  lemma {:induction false} LookupSame(values: seq<Entry>, name: Text, value: Text, any: Text)
    requires SameName(name, any) && Names(values, name)
    ensures Lookup(Overwrite(values, name, value), any) == value
  {
    var n := |values| - 1;
    assert Overwrite(values, name, value)[..n] == Overwrite(values[..n], name, value);
    if !SameName(values[n].name, name) {
      var i :| 0 <= i < |values| && SameName(values[i].name, name);
      assert SameName(values[..n][i].name, name);
      LookupSame(values[..n], name, value, any);
    }
  }

  lemma {:induction false} LookupAppended(values: seq<Entry>, e: Entry, any: Text)
    ensures Lookup(values + [e], any) == if SameName(e.name, any) then e.value else Lookup(values, any)
  {
    assert (values + [e])[..|values|] == values;
  }

  lemma {:induction false} UpperSameName(a: Text, b: Text)
    ensures SameName(UpperText(a), b) == SameName(a, b)
  {
    UpperTextPlain(a);
  }

  /** The list `Set` would write maps the name, in any case, to the value, and leaves all others alone. */
  lemma {:induction false} LookupUpsert(values: seq<Entry>, name: Text, value: Text, any: Text)
    ensures Lookup(Upsert(values, name, value), any) == if SameName(name, any) then value else Lookup(values, any)
  {
    if Names(values, name) {
      if SameName(name, any) {
        LookupSame(values, name, value, any);
      } else {
        LookupOther(values, name, value, any);
      }
    } else {
      UpperSameName(name, any);
      LookupAppended(values, Entry(UpperText(name), value), any);
    }
  }

  lemma {:induction false} LookupUpperNames(values: seq<Entry>, any: Text)
    ensures Lookup(UpperNames(values), any) == Lookup(values, any)
  {
    if values != [] {
      var n := |values| - 1;
      assert UpperNames(values)[..n] == UpperNames(values[..n]);
      UpperSameName(values[n].name, any);
      LookupUpperNames(values[..n], any);
    }
  }

  lemma {:induction false} LookupAnyCase(values: seq<Entry>, name: Text, any: Text)
    requires SameName(name, any)
    ensures Lookup(values, any) == Lookup(values, name)
  {
    if values != [] {
      LookupAnyCase(values[..|values| - 1], name, any);
    }
  }

  lemma {:induction false} DistinctValue(values: seq<Entry>, name: Text, value: Text)
    requires Distinct(values) && NamesWith(values, name, value)
    ensures Lookup(values, name) == value
  {
    var n := |values| - 1;
    var i :| 0 <= i < |values| && SameName(values[i].name, name) && values[i].value == value;
    if i < n {
      assert !SameName(values[i].name, values[n].name);
      assert values[..n][i] == values[i];
      DistinctValue(values[..n], name, value);
    }
  }

  // ---------- the file before and after Set ----------

  /** What a file that could be parsed to `values` parses to after `Set(name, value)`: it is only
      rewritten when no entry of that name has the value already. */
  function AfterSet(values: seq<Entry>, name: Text, value: Text): seq<Entry> {
    if NamesWith(values, name, value) then values else UpperNames(Upsert(values, name, value))
  }

  /** A file that parses, once `Set` has stored its list of an entry that can be stored, parses to `AfterSet`. */
  lemma {:induction false} SetStoresAfterSet(contents: Text, name: Text, value: Text)
    requires ParseText(contents).rc == 0 && Storable(Entry(name, value))
    ensures var values := ParseText(contents).values;
      var stored := if NamesWith(values, name, value) then contents else Print(Upsert(values, name, value));
      ParseText(stored) == Parsed(0, AfterSet(values, name, value))
  {
    hide ParseFrom, Print, Storable, UpperNames;
    var values := ParseText(contents).values;
    ParsedStorable(CString(contents));
    UpsertStorable(values, name, value);
    RoundTripIffStorable(Upsert(values, name, value));
  }

  lemma {:induction false} UpsertStorable(values: seq<Entry>, name: Text, value: Text)
    requires AllStorable(values) && Storable(Entry(name, value))
    ensures AllStorable(Upsert(values, name, value))
  {
    hide IsPlain, UpperText, SameName;
    UpperTextPlain(name);
  }

  /** After a successful `Set`, looking the name up in any case finds the new value if and only if the file
      was rewritten or already mapped the name to it. */
  lemma {:induction false} SetFoundIff(values: seq<Entry>, name: Text, value: Text, any: Text)
    requires SameName(name, any)
    ensures Lookup(AfterSet(values, name, value), any) == value <==>
      !NamesWith(values, name, value) || Lookup(values, name) == value
  {
    LookupUpsert(values, name, value, any);
    LookupUpperNames(Upsert(values, name, value), any);
    LookupAnyCase(values, name, any);
  }

  /** Names that differ in more than case keep their values whatever happens. */
  lemma {:induction false} SetKeepsOthers(values: seq<Entry>, name: Text, value: Text, other: Text)
    requires !SameName(name, other)
    ensures Lookup(AfterSet(values, name, value), other) == Lookup(values, other)
  {
    LookupUpsert(values, name, value, other);
    LookupUpperNames(Upsert(values, name, value), other);
  }

  /** A file whose names are distinct up to case is a map: `Set` makes the name, in any case, find the
      value, leaves every other name and the order of the entries alone, and keeps the names distinct. */
  lemma {:induction false} SetOnDistinctNames(values: seq<Entry>, name: Text, value: Text)
    requires Distinct(values)
    ensures var after := AfterSet(values, name, value);
      && Distinct(after)
      && (forall any :: SameName(name, any) ==> Lookup(after, any) == value)
      && (forall other :: !SameName(name, other) ==> Lookup(after, other) == Lookup(values, other))
      && |values| <= |after| <= |values| + 1
      && (|after| == |values| <==> Names(values, name))
      && (forall i :: 0 <= i < |values| ==> SameName(after[i].name, values[i].name))
      && (|after| > |values| ==> after[|values|] == Entry(UpperText(name), value))
  {
    var after := AfterSet(values, name, value);
    if NamesWith(values, name, value) {
      DistinctValue(values, name, value);
    }
    forall any | SameName(name, any)
      ensures Lookup(after, any) == value
    {
      SetFoundIff(values, name, value, any);
    }
    forall other | !SameName(name, other)
      ensures Lookup(after, other) == Lookup(values, other)
    {
      SetKeepsOthers(values, name, value, other);
    }
    NamesInOrder(values, name, value);
  }

  lemma {:induction false} NamesInOrder(values: seq<Entry>, name: Text, value: Text)
    requires Distinct(values)
    ensures var after := AfterSet(values, name, value);
      && Distinct(after)
      && |values| <= |after| <= |values| + 1
      && (|after| == |values| <==> Names(values, name))
      && (forall i :: 0 <= i < |values| ==> SameName(after[i].name, values[i].name))
      && (|after| > |values| ==> after[|values|] == Entry(UpperText(name), value))
  {
    hide UpperText;
    var after := AfterSet(values, name, value);
    var upsert := Upsert(values, name, value);
    UpperTextPlain(name);
    if NamesWith(values, name, value) {
      var i :| 0 <= i < |values| && SameName(values[i].name, name) && values[i].value == value;
      assert Names(values, name);
    } else {
      forall i | 0 <= i < |upsert|
        ensures SameName(after[i].name, upsert[i].name)
      {
        UpperTextPlain(upsert[i].name);
      }
    }
  }

  ghost predicate LosesUpdate(values: seq<Entry>, e: Entry) {
    AllStorable(values) && Storable(e) && Lookup(AfterSet(values, e.name, e.value), e.name) != e.value
  }

  /** Without distinct names an update can be lost: one of two equal names already has the value, the file
      is not rewritten, and looking the name up still finds the other. */
  lemma {:induction false} LostUpdate()
    ensures exists values, e :: LosesUpdate(values, e)
  {
    var name: Text, latest: Text, stale: Text := [0x4D], [0x31], [0x32];
    var values := [Entry(name, latest), Entry(name, stale)];
    assert values[0] == Entry(name, latest);
    assert NamesWith(values, name, latest);
    assert Lookup(values, name) == stale;
    assert Storable(Entry(name, latest)) && Storable(Entry(name, stale));
    SetFoundIff(values, name, latest, name);
    assert LosesUpdate(values, Entry(name, latest));
  }
}
