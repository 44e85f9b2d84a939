/** `decision_agent/context/models.py`: freezing and thawing of JSON metadata. */
module FrozenJson {
  import opened Texts

  datatype Key = Name(name: string) | OtherKey(id: int)

  /** `Mapping` lists its entries in insertion order; it is frozen or a plain dictionary. */
  datatype Value =
    | Null | Bool(b: bool) | Int(i: int) | Str(s: string) | Float(x: real) | NotFinite
    | Mapping(entries: seq<Entry>, frozen: bool) | List(items: seq<Value>) | Tuple(items: seq<Value>)
    | Foreign(id: int)

  datatype Entry = Entry(key: Key, value: Value)

  datatype JsonError = FloatNotFinite | KeyNotString | NotJsonSafe

  predicate IsScalar(v: Value) { v.Null? || v.Bool? || v.Int? || v.Str? || v.Float? }

  // ---------------------------------------------------------------- the two transformations

  /** `_freeze_json` */
  function Freeze(v: Value): Result<Value, JsonError>
  {
    match v
    case Null => Ok(v)
    case Bool(_) => Ok(v)
    case Int(_) => Ok(v)
    case Str(_) => Ok(v)
    case Float(_) => Ok(v)
    case NotFinite => Err(FloatNotFinite)
    case Mapping(entries, _) =>
      (match FreezeEntries(entries)
       case Ok(es) => Ok(Mapping(es, true))
       case Err(e) => Err(e))
    case List(items) =>
      (match FreezeAll(items)
       case Ok(vs) => Ok(Tuple(vs))
       case Err(e) => Err(e))
    case Tuple(items) =>
      (match FreezeAll(items)
       case Ok(vs) => Ok(Tuple(vs))
       case Err(e) => Err(e))
    case Foreign(_) => Err(NotJsonSafe)
  }

  /** The first item that cannot be frozen decides the error. */
  function FreezeAll(items: seq<Value>): (r: Result<seq<Value>, JsonError>)
    ensures r.Ok? ==> |r.value| == |items|
  {
    if items == [] then Ok([])
    else
      match Freeze(items[0])
      case Err(e) => Err(e)
      case Ok(v) =>
        match FreezeAll(items[1..])
        case Err(e) => Err(e)
        case Ok(vs) => Ok([v] + vs)
  }

  function FreezeValue(entry: Entry): Result<Value, JsonError> { Freeze(entry.value) }

  function FreezeEntries(entries: seq<Entry>): (r: Result<seq<Entry>, JsonError>)
    ensures r.Ok? ==> |r.value| == |entries|
  {
    if entries == [] then Ok([])
    else if entries[0].key.OtherKey? then Err(KeyNotString)
    else
      match FreezeValue(entries[0])
      case Err(e) => Err(e)
      case Ok(v) =>
        match FreezeEntries(entries[1..])
        case Err(e) => Err(e)
        case Ok(es) => Ok([Entry(entries[0].key, v)] + es)
  }

  /** `_thaw_json`, which leaves a list, and everything inside it, as it is. */
  function Thaw(v: Value): Value
  {
    match v
    case Mapping(entries, _) => Mapping(ThawEntries(entries), false)
    case Tuple(items) => List(ThawAll(items))
    case _ => v
  }

  function ThawAll(items: seq<Value>): seq<Value>
  {
    if items == [] then [] else [Thaw(items[0])] + ThawAll(items[1..])
  }

  function ThawEntry(entry: Entry): Entry { Entry(entry.key, Thaw(entry.value)) }

  function ThawEntries(entries: seq<Entry>): seq<Entry>
  {
    if entries == [] then [] else [ThawEntry(entries[0])] + ThawEntries(entries[1..])
  }

  // ---------------------------------------------------------------- what the values are

  /** Only scalars, frozen mappings with string keys and tuples, at every depth. */
  predicate IsFrozen(v: Value)
  {
    match v
    case Mapping(entries, frozen) =>
      frozen && forall i :: 0 <= i < |entries| ==> entries[i].key.Name? && IsFrozen(entries[i].value)
    case Tuple(items) => forall i :: 0 <= i < |items| ==> IsFrozen(items[i])
    case _ => IsScalar(v)
  }

  /** The value with plain dictionaries for all mappings and lists for all tuples, at every depth. */
  function Plain(v: Value): Value
  {
    match v
    case Mapping(entries, _) =>
      Mapping(seq(|entries|, i requires 0 <= i < |entries| => Entry(entries[i].key, Plain(entries[i].value))), false)
    case Tuple(items) => List(seq(|items|, i requires 0 <= i < |items| => Plain(items[i])))
    case List(items) => List(seq(|items|, i requires 0 <= i < |items| => Plain(items[i])))
    case _ => v
  }

  /** What may not occur in metadata. */
  predicate IsBad(v: Value)
  {
    || v.NotFinite? || v.Foreign?
    || (v.Mapping? && exists i :: 0 <= i < |v.entries| && v.entries[i].key.OtherKey?)
  }

  /** `w` occurs in `v`, at any depth. */
  predicate Occurs(w: Value, v: Value)
    decreases v
  {
    || w == v
    || (v.Mapping? && exists i :: 0 <= i < |v.entries| && Occurs(w, v.entries[i].value))
    || ((v.List? || v.Tuple?) && exists i :: 0 <= i < |v.items| && Occurs(w, v.items[i]))
  }

  // ---------------------------------------------------------------- pointwise views of the loops

  lemma {:induction false} FreezeAllPointwise(items: seq<Value>)
    ensures FreezeAll(items).Ok? <==> forall i :: 0 <= i < |items| ==> Freeze(items[i]).Ok?
    ensures FreezeAll(items).Ok? ==> forall i :: 0 <= i < |items| ==> Freeze(items[i]) == Ok(FreezeAll(items).value[i])
  {
    if items != [] {
      FreezeAllPointwise(items[1..]);
      assert forall i :: 1 <= i < |items| ==> items[i] == items[1..][i - 1];
    }
  }

  lemma {:induction false} FreezeEntriesPointwise(entries: seq<Entry>)
    ensures FreezeEntries(entries).Ok? <==> forall i :: 0 <= i < |entries| ==>
              entries[i].key.Name? && Freeze(entries[i].value).Ok?
    ensures FreezeEntries(entries).Ok? ==> forall i :: 0 <= i < |entries| ==>
              && FreezeEntries(entries).value[i].key == entries[i].key
              && Freeze(entries[i].value) == Ok(FreezeEntries(entries).value[i].value)
  {
    if entries != [] {
      FreezeEntriesPointwise(entries[1..]);
      assert forall i :: 1 <= i < |entries| ==> entries[i] == entries[1..][i - 1];
    }
  }

  lemma {:induction false} ThawAllPointwise(items: seq<Value>)
    ensures |ThawAll(items)| == |items| && forall i :: 0 <= i < |items| ==> ThawAll(items)[i] == Thaw(items[i])
  {
    if items != [] { ThawAllPointwise(items[1..]); }
  }

  lemma {:induction false} ThawEntriesPointwise(entries: seq<Entry>)
    ensures |ThawEntries(entries)| == |entries|
    ensures forall i :: 0 <= i < |entries| ==> ThawEntries(entries)[i] == Entry(entries[i].key, Thaw(entries[i].value))
  {
    if entries != [] { ThawEntriesPointwise(entries[1..]); }
  }

  // ---------------------------------------------------------------- the theorems

  /** Freezing succeeds exactly when nothing bad occurs at any depth. */
  lemma {:induction false} FreezeFailsOnlyOnBadValues(v: Value)
    ensures Freeze(v).Ok? <==> forall w :: Occurs(w, v) ==> !IsBad(w)
    decreases v
  {
    match v
    case Mapping(entries, _) =>
      FreezeEntriesPointwise(entries);
      forall i | 0 <= i < |entries| { FreezeFailsOnlyOnBadValues(entries[i].value); }
      if Freeze(v).Ok? {
        forall w | Occurs(w, v) ensures !IsBad(w) {
          if w != v { var i :| 0 <= i < |entries| && Occurs(w, entries[i].value); }
        }
      } else {
        MappingHasBad(v);
      }
    case List(items) =>
      ItemsHaveBad(v, items);
    case Tuple(items) =>
      ItemsHaveBad(v, items);
    case _ =>
      assert Occurs(v, v);
  }

  lemma {:induction false} MappingHasBad(v: Value)
    requires v.Mapping? && Freeze(v).Err?
    requires forall i :: 0 <= i < |v.entries| ==>
              (Freeze(v.entries[i].value).Ok? <==> forall w :: Occurs(w, v.entries[i].value) ==> !IsBad(w))
    ensures exists w :: Occurs(w, v) && IsBad(w)
  {
    FreezeEntriesPointwise(v.entries);
    var i :| 0 <= i < |v.entries| && !(v.entries[i].key.Name? && Freeze(v.entries[i].value).Ok?);
    if v.entries[i].key.OtherKey? {
      assert Occurs(v, v) && IsBad(v);
    } else {
      var w :| Occurs(w, v.entries[i].value) && IsBad(w);
      assert Occurs(w, v);
    }
  }

  lemma {:induction false} ItemsHaveBad(v: Value, items: seq<Value>)
    requires (v.List? || v.Tuple?) && v.items == items
    ensures Freeze(v).Ok? <==> forall w :: Occurs(w, v) ==> !IsBad(w)
    decreases v, 0
  {
    FreezeAllPointwise(items);
    forall i | 0 <= i < |items| { FreezeFailsOnlyOnBadValues(items[i]); }
    if Freeze(v).Ok? {
      forall w | Occurs(w, v) ensures !IsBad(w) {
        if w != v { var i :| 0 <= i < |items| && Occurs(w, items[i]); }
      }
    } else {
      var i :| 0 <= i < |items| && Freeze(items[i]).Err?;
      var w :| Occurs(w, items[i]) && IsBad(w);
      assert Occurs(w, v);
    }
  }

  /** What freezing returns is frozen at every depth. */
  lemma {:induction false} FreezeFreezes(v: Value)
    requires Freeze(v).Ok?
    ensures IsFrozen(Freeze(v).value)
    decreases v
  {
    match v
    case Mapping(entries, _) =>
      FreezeEntriesPointwise(entries);
      forall i | 0 <= i < |entries| { FreezeFreezes(entries[i].value); }
    case List(items) =>
      FreezeAllPointwise(items);
      forall i | 0 <= i < |items| { FreezeFreezes(items[i]); }
    case Tuple(items) =>
      FreezeAllPointwise(items);
      forall i | 0 <= i < |items| { FreezeFreezes(items[i]); }
    case _ =>
  }

  /** The frozen values are exactly the fixed points of freezing. */
  lemma {:induction false} FrozenIsFixed(v: Value)
    ensures IsFrozen(v) <==> Freeze(v) == Ok(v)
    decreases v
  {
    match v
    case Mapping(entries, _) =>
      FreezeEntriesPointwise(entries);
      forall i | 0 <= i < |entries| { FrozenIsFixed(entries[i].value); }
      if IsFrozen(v) { assert FreezeEntries(entries).value == entries; }
    case Tuple(items) =>
      FreezeAllPointwise(items);
      forall i | 0 <= i < |items| { FrozenIsFixed(items[i]); }
      if IsFrozen(v) { assert FreezeAll(items).value == items; }
    case _ =>
  }

  lemma {:induction false} FreezeIsIdempotent(v: Value)
    requires Freeze(v).Ok?
    ensures Freeze(Freeze(v).value) == Freeze(v)
  {
    FreezeFreezes(v);
    FrozenIsFixed(Freeze(v).value);
  }

  /** The root becomes a plain dictionary again on the way in; freezing it once more restores the value. */
  lemma {:induction false} RefreezingTheRoot(v: Value)
    requires v.Mapping? && IsFrozen(v)
    ensures Freeze(v.(frozen := false)) == Ok(v)
  {
    FrozenIsFixed(v);
  }

  /** Freezing a thawed frozen value gives it back. */
  lemma {:induction false} FreezeUndoesThaw(f: Value)
    requires IsFrozen(f)
    ensures Freeze(Thaw(f)) == Ok(f)
    decreases f
  {
    match f
    case Mapping(entries, _) =>
      var thawed := ThawEntries(entries);
      ThawEntriesPointwise(entries);
      FreezeEntriesPointwise(thawed);
      forall i | 0 <= i < |entries| ensures Freeze(thawed[i].value) == Ok(entries[i].value) {
        FreezeUndoesThaw(entries[i].value);
      }
      assert FreezeEntries(thawed).value == entries;
    case Tuple(items) =>
      var thawed := ThawAll(items);
      ThawAllPointwise(items);
      FreezeAllPointwise(thawed);
      forall i | 0 <= i < |items| ensures Freeze(thawed[i]) == Ok(items[i]) { FreezeUndoesThaw(items[i]); }
      assert FreezeAll(thawed).value == items;
    case _ =>
  }

  /** Thawing a frozen value gives the original with its tuples turned into lists. */
  lemma {:induction false} ThawUndoesFreeze(v: Value)
    requires Freeze(v).Ok?
    ensures Thaw(Freeze(v).value) == Plain(v)
    decreases v
  {
    match v
    case Mapping(entries, _) =>
      FreezeEntriesPointwise(entries);
      var frozen := FreezeEntries(entries).value;
      ThawEntriesPointwise(frozen);
      forall i | 0 <= i < |entries| ensures ThawEntries(frozen)[i] == Entry(entries[i].key, Plain(entries[i].value)) {
        ThawUndoesFreeze(entries[i].value);
      }
      assert ThawEntries(frozen) == Plain(v).entries;
    case List(items) =>
      ThawUndoesFreezeAll(v, items);
    case Tuple(items) =>
      ThawUndoesFreezeAll(v, items);
    case _ =>
  }

  lemma {:induction false} ThawUndoesFreezeAll(v: Value, items: seq<Value>)
    requires (v.List? || v.Tuple?) && v.items == items && Freeze(v).Ok?
    ensures Thaw(Freeze(v).value) == Plain(v)
    decreases v, 0
  {
    FreezeAllPointwise(items);
    var frozen := FreezeAll(items).value;
    ThawAllPointwise(frozen);
    forall i | 0 <= i < |items| ensures ThawAll(frozen)[i] == Plain(items[i]) { ThawUndoesFreeze(items[i]); }
    assert ThawAll(frozen) == Plain(v).items;
  }

  /** Freezing forgets nothing but the difference between lists and tuples: two values freeze alike
      exactly when their plain forms are equal. */
  lemma {:induction false} FreezeForgetsOnlyTuples(v: Value, w: Value)
    requires Freeze(v).Ok? && Freeze(w).Ok?
    ensures Freeze(v) == Freeze(w) <==> Plain(v) == Plain(w)
  {
    ThawUndoesFreeze(v);
    ThawUndoesFreeze(w);
    FreezeFreezes(v);
    FreezeFreezes(w);
    FreezeUndoesThaw(Freeze(v).value);
    FreezeUndoesThaw(Freeze(w).value);
  }

  // ---------------------------------------------------------------- which error

  /** Everything that may not occur in the value, in reading order. */
  function Complaints(v: Value): seq<JsonError>
  {
    match v
    case NotFinite => [FloatNotFinite]
    case Foreign(_) => [NotJsonSafe]
    case Mapping(entries, _) => EntryComplaints(entries)
    case List(items) => ItemComplaints(items)
    case Tuple(items) => ItemComplaints(items)
    case _ => []
  }

  function ItemComplaints(items: seq<Value>): seq<JsonError>
  {
    if items == [] then [] else Complaints(items[0]) + ItemComplaints(items[1..])
  }

  function ComplaintsOfValue(entry: Entry): seq<JsonError> { Complaints(entry.value) }

  function EntryComplaints(entries: seq<Entry>): seq<JsonError>
  {
    if entries == [] then []
    else
      (if entries[0].key.OtherKey? then [KeyNotString] else []) + ComplaintsOfValue(entries[0])
      + EntryComplaints(entries[1..])
  }

  predicate RaisesFirst<T>(r: Result<T, JsonError>, complaints: seq<JsonError>)
  {
    if complaints == [] then r.Ok? else r == Err(complaints[0])
  }

  /** Freezing raises the first complaint. */
  lemma {:induction false} FreezeRaisesFirst(v: Value)
    ensures RaisesFirst(Freeze(v), Complaints(v))
    decreases v
  {
    match v
    case Mapping(entries, _) => FreezeEntriesRaisesFirst(v, entries);
    case List(items) => FreezeAllRaisesFirst(v, items);
    case Tuple(items) => FreezeAllRaisesFirst(v, items);
    case _ =>
  }

  lemma {:induction false} FreezeAllRaisesFirst(v: Value, items: seq<Value>)
    requires forall i :: 0 <= i < |items| ==> items[i] < v
    ensures RaisesFirst(FreezeAll(items), ItemComplaints(items))
    decreases v, 0, |items|
  {
    if items != [] {
      FreezeRaisesFirst(items[0]);
      FreezeAllRaisesFirst(v, items[1..]);
    }
  }

  lemma {:induction false} FreezeEntriesRaisesFirst(v: Value, entries: seq<Entry>)
    requires forall i :: 0 <= i < |entries| ==> entries[i].value < v
    ensures RaisesFirst(FreezeEntries(entries), EntryComplaints(entries))
    decreases v, 0, |entries|
  {
    if entries != [] {
      FreezeRaisesFirst(entries[0].value);
      FreezeEntriesRaisesFirst(v, entries[1..]);
      assert RaisesFirst(FreezeValue(entries[0]), ComplaintsOfValue(entries[0]));
    }
  }
}
