/**
  The dictionary-backed values controller: a table of strings keyed by `int`
  identifiers, shared by every request (the C# fields are `static`), with a
  counter that hands out the next identifier. One `ValuesController` object
  stands for that shared state.
*/
module DictionaryValues {
  import opened DotNet
  import opened ActionResults

  /** The three entries the table starts with. */
  const Seed: map<Int32, string> := map[1 := "value1", 2 := "value2", 3 := "value3"]

  /** The body `GetInfo` returns. */
  datatype Info = Info(totalItems: int, nextId: int, availableIds: seq<int>)

  function NotFoundMessage(id: Int32): string
  {
    "Value with ID " + IntToString(id) + " not found"
  }

  class ValuesController {
    var values: map<Int32, string>
    var nextId: Int32
    /** Every identifier handed out so far, the seeded ones included. */
    ghost var issued: set<int>

    /** Every identifier ever handed out, live or deleted, is below the counter;
        the live ones are among them. */
    ghost predicate Valid()
      reads this
    {
      && (forall id :: id in values ==> id in issued)
      && (forall id :: id in issued ==> id < nextId)
    }

    constructor ()
      ensures Valid()
      ensures values == Seed && nextId == 4 && issued == {1, 2, 3}
    {
      values := Seed;
      nextId := 4;
      issued := {1, 2, 3};
    }

    /** `GetAll`: the whole table. */
    method GetAll() returns (r: Response<map<Int32, string>>)
      ensures r == Ok(values)
    {
      r := Ok(values);
    }

    /** `Get`: the value stored under id, or `NotFound` naming the id. */
    method Get(id: Int32) returns (r: Response<string>)
      ensures r.Ok? <==> id in values
      ensures r.Ok? ==> r.body == values[id]
      ensures !r.Ok? ==> r == NotFound(NotFoundMessage(id))
    {
      if id !in values {
        return NotFound(NotFoundMessage(id));
      }
      r := Ok(values[id]);
    }

    /** `Create`: rejects a blank value; otherwise stores it under a never-used identifier,
        returns that identifier and advances the counter by one. The counter is not
        allowed to wrap around (see the as-written `CreateUnchecked` below). */
    method Create(value: NullableString) returns (r: Response<string>)
      requires Valid()
      modifies this
      ensures Valid()
      ensures IsNullOrWhiteSpace(value) ==>
                && r == BadRequest("Value cannot be empty")
                && values == old(values) && nextId == old(nextId) && issued == old(issued)
      ensures !IsNullOrWhiteSpace(value) && old(nextId) < MaxInt32 ==>
                && r == Created(old(nextId), value.value)
                && old(nextId) !in old(issued)
                && values == old(values)[old(nextId) := value.value]
                && nextId == old(nextId) + 1
                && issued == old(issued) + {old(nextId) as int}
      ensures !IsNullOrWhiteSpace(value) && old(nextId) == MaxInt32 ==>
                && r == IdsExhausted
                && values == old(values) && nextId == old(nextId) && issued == old(issued)
      ensures r.Created? ==> r.id !in old(values)
    {
      if IsNullOrWhiteSpace(value) {
        return BadRequest("Value cannot be empty");
      }
      if nextId == MaxInt32 {
        return IdsExhausted;
      }
      values := values[nextId := value.value];
      var createdId := nextId;
      nextId := nextId + 1;
      issued := issued + {createdId as int};
      r := Created(createdId, value.value);
    }

    /** `Update`: a missing id is `NotFound` whatever the value; a blank value is
        `BadRequest`; otherwise only that entry changes. */
    method Update(id: Int32, value: NullableString) returns (r: Response<Ack>)
      requires Valid()
      modifies this
      ensures Valid()
      ensures nextId == old(nextId) && issued == old(issued)
      ensures id !in old(values) ==>
                r == NotFound(NotFoundMessage(id)) && values == old(values)
      ensures id in old(values) && IsNullOrWhiteSpace(value) ==>
                r == BadRequest("Value cannot be empty") && values == old(values)
      ensures id in old(values) && !IsNullOrWhiteSpace(value) ==>
                && r == Ok(AckWithData("Value " + IntToString(id) + " updated successfully", value.value))
                && values == old(values)[id := value.value]
                && values.Keys == old(values).Keys
    {
      if id !in values {
        return NotFound(NotFoundMessage(id));
      }
      if IsNullOrWhiteSpace(value) {
        return BadRequest("Value cannot be empty");
      }
      values := values[id := value.value];
      r := Ok(AckWithData("Value " + IntToString(id) + " updated successfully", value.value));
    }

    /** `Delete`: removes exactly that entry, or reports `NotFound`; the counter and the
        identifiers already handed out stay, so a deleted id is never handed out again. */
    method Delete(id: Int32) returns (r: Response<Ack>)
      requires Valid()
      modifies this
      ensures Valid()
      ensures nextId == old(nextId) && issued == old(issued)
      ensures id !in old(values) ==>
                r == NotFound(NotFoundMessage(id)) && values == old(values)
      ensures id in old(values) ==>
                && r == Ok(Ack("Value " + IntToString(id) + " deleted successfully"))
                && values == old(values) - {id}
    {
      if id !in values {
        return NotFound(NotFoundMessage(id));
      }
      values := values - {id};
      r := Ok(Ack("Value " + IntToString(id) + " deleted successfully"));
    }

    /** `GetInfo`: the number of entries, the counter, and the live ids in ascending order. */
    method GetInfo() returns (r: Response<Info>)
      ensures r.Ok?
      ensures r.body.totalItems == |values| && r.body.nextId == nextId
      ensures StrictlyIncreasing(r.body.availableIds)
      ensures |r.body.availableIds| == |values|
      ensures forall id :: id in r.body.availableIds <==> id in values.Keys
    {
      r := Ok(Info(|values|, nextId, Ascending(values.Keys)));
    }
  }

  /** Deleting an entry and creating another does not hand the deleted id out again. */
  method DeletedIdIsNotReused()
  {
    var c := new ValuesController();
    var deleted := c.Delete(3);
    assert deleted.Ok?;
    assert !IsWhiteSpace("value4"[0]);
    assert c.values.Keys == {1, 2};
    var created := c.Create(Some("value4"));
    assert created == Created(4, "value4");
    assert c.values.Keys == {1, 2, 4};
    var missing := c.Get(3);
    assert missing.NotFound?;
    var info := c.GetInfo();
    assert info.body.totalItems == 3 && info.body.nextId == 5;
  }

  // ---------------------------------------------------------------------------
  // `Create` as written: the counter is a 32-bit `int` incremented unchecked
  // ---------------------------------------------------------------------------

  /** One `Create` of a valid value exactly as the source does it: store under the
      counter, then `_nextId++`, which wraps from `int.MaxValue` to `int.MinValue`. */
  function CreateUnchecked(values: map<Int32, string>, nextId: Int32, value: string): (r: (map<Int32, string>, Int32))
    ensures r.0.Keys == values.Keys + {nextId} && r.0[nextId] == value
    ensures forall id :: id in values && id != nextId ==> r.0[id] == values[id]
    ensures nextId < MaxInt32 ==> r.1 == nextId + 1
    ensures nextId == MaxInt32 ==> r.1 == MinInt32
  {
    (values[nextId := value], Wrap(nextId + 1))
  }

  /** A `Create` of a valid value as written, followed by a `Delete` of the id it
      reported: the table gets its old entries back (when that id was not live) and
      only the counter moves. */
  function CreateThenDeleteUnchecked(values: map<Int32, string>, nextId: Int32, value: string): (r: (map<Int32, string>, Int32))
    ensures r.0.Keys == values.Keys - {nextId}
    ensures forall id :: id in r.0 ==> r.0[id] == values[id]
    ensures nextId !in values ==> r.0 == values
    ensures r.1 == Wrap(nextId + 1)
  {
    var (v, n) := CreateUnchecked(values, nextId, value);
    (v - {nextId}, n)
  }

  /** k such create-then-delete pairs in a row. */
  function CreateThenDeleteUncheckedTimes(values: map<Int32, string>, nextId: Int32, value: string, k: nat): (map<Int32, string>, Int32)
    decreases k
  {
    if k == 0 then (values, nextId)
    else
      var (v, n) := CreateThenDeleteUnchecked(values, nextId, value);
      CreateThenDeleteUncheckedTimes(v, n, value, k - 1)
  }

  /** Starting from the counter value `Wrap(s)`, k create-then-delete pairs that never
      land on a live id leave the table as it was and the counter at `Wrap(s + k)`. */
  lemma {:induction false} CreateThenDeleteUncheckedTimesCounter(values: map<Int32, string>, s: int, value: string, k: nat)
    requires forall j :: s <= j < s + k ==> Wrap(j) !in values
    ensures CreateThenDeleteUncheckedTimes(values, Wrap(s), value, k) == (values, Wrap(s + k))
    decreases k
  {
    if k > 0 {
      assert Wrap(s) !in values;
      assert CreateThenDeleteUnchecked(values, Wrap(s), value).0 == values;
      WrapAddWrap(s, 1);
      CreateThenDeleteUncheckedTimesCounter(values, s + 1, value, k - 1);
    }
  }

  /** Past `int.MaxValue` the counter continues from `int.MinValue`. */
  lemma WrapPastMax(x: int)
    requires MaxInt32 < x <= MaxInt32 + Modulus32
    ensures Wrap(x) == x - Modulus32
  {
    var y := x + 0x8000_0000;
    assert y / Modulus32 == 1;
  }

  /** From the seeded table, the counter values 4 up to 2^32 (wrapped) are never live ids. */
  lemma SeedIdsNotRevisited()
    ensures forall j :: 4 <= j < Modulus32 + 1 ==> Wrap(j) !in Seed
  {
    forall j | 4 <= j < Modulus32 + 1
      ensures Wrap(j) !in Seed
    {
      if j > MaxInt32 {
        WrapPastMax(j);
      }
    }
  }

  /** The unchecked counter breaks the key bound and reuses identifiers, with no more
      than one live entry added at a time: from the seeded table, posting a value and
      deleting it again 2^31 - 5 times brings the counter to `int.MaxValue`; the next
      creation there leaves the counter at `int.MinValue`, below the new key. And
      2^32 - 3 such pairs bring the counter back to 1 with entry 1 still live, so the
      next creation overwrites entry 1. */
  lemma CreateUncheckedReusesIds()
    ensures CreateThenDeleteUncheckedTimes(Seed, 4, "x", MaxInt32 - 4) == (Seed, MaxInt32)
    ensures var (v, n) := CreateUnchecked(Seed, MaxInt32, "x"); MaxInt32 in v && n == MinInt32
    ensures var (v, n) := CreateThenDeleteUncheckedTimes(Seed, 4, "x", Modulus32 - 3);
            v == Seed && n == 1 && CreateUnchecked(v, n, "y").0[1] == "y"
  {
    SeedIdsNotRevisited();
    CreateThenDeleteUncheckedTimesCounter(Seed, 4, "x", MaxInt32 - 4);
    CreateThenDeleteUncheckedTimesCounter(Seed, 4, "x", Modulus32 - 3);
  }
}
