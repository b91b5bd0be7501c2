/**
 * The response side: `DataTablesResult`, an object whose nullable fields the
 * controller sets, the gate that refuses to send it while a required field is
 * null, and `ExecuteResult`, which writes it to the HTTP response. The JSON
 * serializer is a foreign library: what it does with the object is given to
 * `ExecuteResult` as a `Serialization` value.
 */
module DataTablesResult {
  import opened Outcomes

  /** The four fields the gate checks, in the order it checks them. */
  datatype Field = Draw | RecordsTotal | RecordsFiltered | Data

  /** Position of a field in the order of the checks. */
  function CheckOrder(f: Field): nat {
    match f
    case Draw => 0
    case RecordsTotal => 1
    case RecordsFiltered => 2
    case Data => 3
  }

  const JsonContentType: string := "application/json"

  /** The exception a failing serializer raised; its content is opaque here. */
  datatype Cause = Cause(description: string)

  /**
   * What the serializer does with the result: writes the whole document, or
   * throws after some text has reached the stream (the writers are disposed,
   * and so flushed, on the way out).
   */
  datatype Serialization = Serialized(json: string) | SerializerThrew(written: string, cause: Cause)

  /**
   * The exceptions `ExecuteResult` can throw: the `NullReferenceException` of
   * the gate, naming the null field, and `DataTablesResultSerializationException`
   * with the serializer's exception as its inner exception.
   */
  datatype Failure =
    | NullReference(field: Field)
    | SerializationException(inner: Cause)

  /** The HTTP response: its content type and the text written to its output stream. */
  class HttpResponse {
    var contentType: Option<string>
    var output: string

    /** A response that has its server's initial content type and nothing written yet. */
    constructor (initialContentType: Option<string>)
      ensures contentType == initialContentType && output == []
    {
      contentType := initialContentType;
      output := [];
    }
  }

  class DataTablesResult {
    /** The draw counter of the request this answers. */
    var draw: Option<int>
    /** Records before filtering. */
    var recordsTotal: Option<int>
    /** Records after filtering, before paging. */
    var recordsFiltered: Option<int>
    /** One array of strings per row. */
    var data: Option<seq<seq<Option<string>>>>
    /** Optional message for the user; nothing checks it. */
    var error: Option<string>

    /** All fields start out null. */
    constructor ()
      ensures draw == None && recordsTotal == None && recordsFiltered == None
      ensures data == None && error == None
    {
      draw, recordsTotal, recordsFiltered := None, None, None;
      data, error := None, None;
    }

    predicate IsNull(f: Field)
      reads this
    {
      match f
      case Draw => draw.None?
      case RecordsTotal => recordsTotal.None?
      case RecordsFiltered => recordsFiltered.None?
      case Data => data.None?
    }

    /** Ready to send: none of the four checked fields is null. */
    predicate Complete()
      reads this
    {
      !IsNull(Draw) && !IsNull(RecordsTotal) && !IsNull(RecordsFiltered) && !IsNull(Data)
    }

    /**
     * The sanity checks: passes exactly when no checked field is null, and
     * otherwise reports the first null one in the order draw, recordsTotal,
     * recordsFiltered, data. It only reads the object.
     */
    method CheckValidFields() returns (failure: Option<Failure>)
      ensures failure.None? <==> Complete()
      ensures failure.Some? ==>
        failure.value.NullReference? && IsNull(failure.value.field) &&
        forall g :: CheckOrder(g) < CheckOrder(failure.value.field) ==> !IsNull(g)
    {
      if draw == None {
        return Some(NullReference(Draw));
      }
      if recordsTotal == None {
        return Some(NullReference(RecordsTotal));
      }
      if recordsFiltered == None {
        return Some(NullReference(RecordsFiltered));
      }
      if data == None {
        return Some(NullReference(Data));
      }
      return None;
    }

    /**
     * Writes the serializer's text to the response; a serializer exception is
     * rethrown wrapped in `DataTablesResultSerializationException`.
     */
    static method SerializeJson(stream: HttpResponse, serializer: Serialization) returns (failure: Option<Failure>)
      modifies stream
      ensures stream.contentType == old(stream.contentType)
      ensures serializer.Serialized? ==> failure == None && stream.output == old(stream.output) + serializer.json
      ensures serializer.SerializerThrew? ==>
        failure == Some(SerializationException(serializer.cause)) &&
        stream.output == old(stream.output) + serializer.written
    {
      match serializer
      case Serialized(json) =>
        stream.output := stream.output + json;
        failure := None;
      case SerializerThrew(written, cause) =>
        stream.output := stream.output + written;
        failure := Some(SerializationException(cause));
    }

    /**
     * Validates first; an incomplete result throws before the response is
     * touched. A complete one sets the content type to application/json and
     * then writes the serialization.
     */
    method ExecuteResult(response: HttpResponse, serializer: Serialization) returns (failure: Option<Failure>)
      modifies response
      ensures !Complete() ==>
        unchanged(response) && failure.Some? && failure.value.NullReference? &&
        IsNull(failure.value.field) &&
        forall g :: CheckOrder(g) < CheckOrder(failure.value.field) ==> !IsNull(g)
      ensures Complete() ==> response.contentType == Some(JsonContentType)
      ensures Complete() && serializer.Serialized? ==>
        failure == None && response.output == old(response.output) + serializer.json
      ensures Complete() && serializer.SerializerThrew? ==>
        failure == Some(SerializationException(serializer.cause)) &&
        response.output == old(response.output) + serializer.written
    {
      failure := CheckValidFields();
      if failure.Some? {
        return;
      }
      response.contentType := Some(JsonContentType);
      failure := SerializeJson(response, serializer);
    }
  }

  /** A result whose data list is empty but set, with every count set, passes the gate. */
  lemma EmptyDataIsComplete(r: DataTablesResult)
    requires r.draw.Some? && r.recordsTotal.Some? && r.recordsFiltered.Some? && r.data == Some([])
    ensures r.Complete()
  {
  }
}
