/**
 * The data model shared by every layer: the two enums, the thread record
 * (as DTO and as entity), the exceptions the core throws and the
 * ResponseEntity values some repositories return instead.
 */
module Threads {
  import opened Wrappers

  datatype ThreadType = SENDER | RECEIVER

  datatype ThreadState = RUNNING | STOPPED

  /** A java.util.UUID, kept opaque; freshness comes from a counter in each service. */
  type Uuid = nat

  /** java.lang.Thread's priority bounds and default. */
  const MIN_PRIORITY: int := 1
  const NORM_PRIORITY: int := 5
  const MAX_PRIORITY: int := 10

  /** ThreadDto (and its Sender/Receiver twins): every field is a nullable reference. */
  datatype ThreadDto = ThreadDto(
    id: Option<Uuid>,
    threadType: Option<ThreadType>,
    state: Option<ThreadState>,
    priority: Option<int>)

  /** ThreadEntity (and its Sender/Receiver twins): the JPA object, fields nullable in memory. */
  datatype ThreadEntity = ThreadEntity(
    id: Option<Uuid>,
    threadType: Option<ThreadType>,
    state: Option<ThreadState>,
    priority: Option<int>)

  /** A row the database accepts: an @Id and three nullable = false columns. */
  predicate Complete(e: ThreadEntity) {
    e.id.Some? && e.threadType.Some? && e.state.Some? && e.priority.Some?
  }

  /** The exceptions that leave the core. */
  datatype Exception =
    | IllegalArgument                 // java.lang.IllegalArgumentException
    | IndexOutOfBounds                // java.lang.IndexOutOfBoundsException
    | NullPointer                     // java.lang.NullPointerException
    | Management(message: string)     // ThreadManagementException with a fixed message
    | ManagementWrapping              // ThreadManagementException carrying another exception's message
    | NotFound(id: Option<Uuid>)      // ThreadNotFoundException
    | InvalidDataAccessApiUsage       // a null argument a Spring Data repository rejects, as its proxy translates it
    | StorageFailure                  // a persistence exception rethrown unchanged
    | Runtime(message: string)        // java.lang.RuntimeException

  /** What a Java call does: return a value or throw. */
  datatype Outcome<+T> = Returned(value: T) | Thrown(error: Exception)

  datatype HttpStatus = OK | BAD_REQUEST

  /** ResponseEntity<T>: ok(body) or badRequest().body(body). */
  datatype Response<+T> = Response(status: HttpStatus, body: T)

  /** Decimal digits of n, most significant first. */
  function NatText(n: nat): (s: string)
    ensures |s| >= 1
    ensures forall k | 0 <= k < |s| :: '0' <= s[k] <= '9'
  {
    var digit := ['0' + (n % 10) as char];
    if n < 10 then digit else NatText(n / 10) + digit
  }

  /** The text string concatenation gives an id: "null" for a null reference. */
  function IdText(id: Option<Uuid>): (s: string)
    ensures id.None? <==> s == "null"
  {
    match id
    case None => "null"
    case Some(u) =>
      var digits := NatText(u);
      assert digits[0] != 'n';
      digits
  }
}
