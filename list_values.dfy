/**
  The list-backed values controller: a list of strings shared by every request
  (the C# field is `static`), where an identifier is a position in the list.
  One `ValuesController` object stands for that shared list.
*/
module ListValues {
  import opened DotNet
  import opened ActionResults

  /** The `NotFound` text. The source writes it without `$`, so "{id}" is not
      replaced by the identifier: every miss reports this same literal text. */
  const NotFoundMessage := "Value with ID {id} not found"

  class ValuesController {
    var values: seq<string>

    constructor ()
      ensures values == ["value1", "value2", "value3"]
    {
      values := ["value1", "value2", "value3"];
    }

    /** `Get()`: the whole list. */
    method GetAll() returns (r: Response<seq<string>>)
      ensures r == Ok(values)
    {
      r := Ok(values);
    }

    /** `Get(id)`: the value at position id when that position exists, `NotFound` for
        every other id, negative ones included. */
    method Get(id: Int32) returns (r: Response<string>)
      ensures r.Ok? <==> 0 <= id < |values|
      ensures r.Ok? ==> r.body == values[id]
      ensures !r.Ok? ==> r == NotFound(NotFoundMessage)
    {
      if id < 0 || id >= |values| {
        return NotFound(NotFoundMessage);
      }
      r := Ok(values[id]);
    }

    /** `Post`: rejects a blank value; otherwise appends it and reports its position,
        the last one. */
    method Post(value: NullableString) returns (r: Response<string>)
      modifies this
      ensures IsNullOrWhiteSpace(value) ==>
                r == BadRequest("Value cannot be empty") && values == old(values)
      ensures !IsNullOrWhiteSpace(value) ==>
                && values == old(values) + [value.value]
                && r == Created(|old(values)|, value.value)
                && r.id == |values| - 1 && values[r.id] == value.value
    {
      if IsNullOrWhiteSpace(value) {
        return BadRequest("Value cannot be empty");
      }
      values := values + [value.value];
      r := Created(|values| - 1, value.value);
    }

    /** `Put`: an id outside the list is `NotFound` whatever the value; a blank value is
        `BadRequest`; otherwise only position id changes and the length stays. */
    method Put(id: Int32, value: NullableString) returns (r: Response<Ack>)
      modifies this
      ensures !(0 <= id < |old(values)|) ==>
                r == NotFound(NotFoundMessage) && values == old(values)
      ensures 0 <= id < |old(values)| && IsNullOrWhiteSpace(value) ==>
                r == BadRequest("Value cannot be empty") && values == old(values)
      ensures 0 <= id < |old(values)| && !IsNullOrWhiteSpace(value) ==>
                && r == Ok(AckWithData("Value {id} updated successfully", value.value))
                && |values| == |old(values)|
                && values[id] == value.value
                && (forall j :: 0 <= j < |values| && j != id ==> values[j] == old(values)[j])
    {
      if id < 0 || id >= |values| {
        return NotFound(NotFoundMessage);
      }
      if IsNullOrWhiteSpace(value) {
        return BadRequest("Value cannot be empty");
      }
      values := values[id := value.value];
      r := Ok(AckWithData("Value {id} updated successfully", value.value));
    }

    /** `Delete` (`RemoveAt`): an id outside the list is `NotFound`; otherwise the list
        loses position id, the values before it keep their ids and every later value
        moves down by one, so its id changes. */
    method Delete(id: Int32) returns (r: Response<Ack>)
      modifies this
      ensures !(0 <= id < |old(values)|) ==>
                r == NotFound(NotFoundMessage) && values == old(values)
      ensures 0 <= id < |old(values)| ==>
                && r == Ok(Ack("Value {id} deleted successfully"))
                && |values| == |old(values)| - 1
                && (forall j :: 0 <= j < id ==> values[j] == old(values)[j])
                && (forall j :: id <= j < |values| ==> values[j] == old(values)[j + 1])
    {
      if id < 0 || id >= |values| {
        return NotFound(NotFoundMessage);
      }
      values := values[..id] + values[id + 1..];
      r := Ok(Ack("Value {id} deleted successfully"));
    }
  }

  /** A posted value can be read back under the id `Post` reports; after deleting the
      first entry, id 0 names what used to be id 1. */
  method PostedIdReadsBackAndDeleteShifts()
  {
    var c := new ValuesController();
    assert !IsWhiteSpace("value4"[0]);
    var created := c.Post(Some("value4"));
    assert created == Created(3, "value4");
    var read := c.Get(3);
    assert read == Ok("value4");
    var deleted := c.Delete(0);
    assert deleted.Ok?;
    var shifted := c.Get(0);
    assert shifted == Ok("value2");
    var gone := c.Get(3);
    assert gone == NotFound(NotFoundMessage);
  }
}
