/**
 * The BlockingQueue<String> bean both lifecycle controllers share: a
 * LinkedBlockingQueue created without a capacity, so put never waits.
 */
module SharedQueue {
  import opened Wrappers

  class BlockingQueue {
    /** The queued messages, head first. */
    var items: seq<string>

    /** new LinkedBlockingQueue<>(): empty. */
    constructor ()
      ensures items == []
    {
      items := [];
    }

    /** put: appends at the tail; an unbounded queue never blocks. */
    method Put(message: string)
      modifies this
      ensures items == old(items) + [message]
    {
      items := items + [message];
    }

    /** poll: removes and returns the head, or null at once when empty. */
    method Poll() returns (head: Option<string>)
      modifies this
      ensures old(items) == [] ==> head.None? && items == []
      ensures old(items) != [] ==> head == Some(old(items)[0]) && items == old(items)[1..]
    {
      if items == [] {
        head := None;
      } else {
        head := Some(items[0]);
        items := items[1..];
      }
    }
  }
}
