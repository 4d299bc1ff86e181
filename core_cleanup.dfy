/**
 * The runtime's cleanup handlers (src/core.c, "Program cleanup &
 * termination"): a singly linked list of (handler, data) records, newest
 * first, whose records double as the opaque handles callers get back, and a
 * `dirty` flag that lets Scm_Cleanup run the handlers only once.  The list
 * is a sequence here; a record's address is its `handle`, a number no other
 * record shares.
 */
module CoreCleanup {

  /** A cleanup_handler_rec: its address, the handler and the data passed to it. */
  datatype HandlerRec = HandlerRec(handle: nat, handler: nat, data: nat)

  /** One call a cleanup makes: handler(data). */
  datatype HandlerCall = HandlerCall(handler: nat, data: nat)

  ghost predicate DistinctHandles(hs: seq<HandlerRec>) {
    forall i, j :: 0 <= i < j < |hs| ==> hs[i].handle != hs[j].handle
  }

  /** The calls made by walking the list from the head: newest handler first. */
  function Calls(hs: seq<HandlerRec>): (calls: seq<HandlerCall>)
    ensures |calls| == |hs|
    ensures forall i :: 0 <= i < |hs| ==> calls[i] == HandlerCall(hs[i].handler, hs[i].data)
  {
    if hs == [] then [] else [HandlerCall(hs[0].handler, hs[0].data)] + Calls(hs[1..])
  }

  /** The position of the first record whose address is `handle`, or the
      length of the list when there is none. */
  function IndexOf(hs: seq<HandlerRec>, handle: nat): (k: nat)
    ensures k <= |hs|
    ensures forall j :: 0 <= j < k ==> hs[j].handle != handle
    ensures k < |hs| ==> hs[k].handle == handle
  {
    if hs == [] then 0
    else if hs[0].handle == handle then 0
    else 1 + IndexOf(hs[1..], handle)
  }

  /*------------------------------------------------------------------
   * Scm_DeleteCleanupHandler as written: the loop
   *     while (y) { if (y == handle) { unlink y; break; } }
   * never moves y along the list.
   */

  /** The state of that loop: still scanning with `y` at a list position
      (`y == |handlers|` is NULL), or returned with the resulting list. */
  datatype DeleteLoop = Scanning(y: nat) | Returned(handlers: seq<HandlerRec>)

  /** One iteration of the loop as written (x stays NULL, so only the head
      can ever be unlinked). */
  function DeleteStepAsWritten(hs: seq<HandlerRec>, handle: nat, y: nat): (next: DeleteLoop)
    // The loop goes on exactly while y names a record other than the
    // handle, and then it goes on from the same record.
    ensures next.Scanning? <==> y < |hs| && hs[y].handle != handle
    ensures next.Scanning? ==> next.y == y
  {
    if y >= |hs| then Returned(hs)
    else if hs[y].handle == handle then Returned(if y == 0 then hs[1..] else hs[..y] + hs[y + 1..])
    else Scanning(y)
  }

  /** The loop state after `n` iterations from the head of the list. */
  function DeleteRunAsWritten(hs: seq<HandlerRec>, handle: nat, n: nat): (st: DeleteLoop)
    // However many iterations have run, the loop is still at the head, or
    // it has returned because the list was empty or the handle was its head.
    ensures st.Scanning? ==> st.y == 0
    ensures st.Returned? ==> n > 0 && ((hs == [] && st.handlers == [])
                                       || (hs != [] && hs[0].handle == handle && st.handlers == hs[1..]))
  {
    if n == 0 then Scanning(0)
    else match DeleteRunAsWritten(hs, handle, n - 1)
      case Returned(r) => Returned(r)
      case Scanning(y) => DeleteStepAsWritten(hs, handle, y)
  }

  /** As written, the loop returns only when the list is empty or the handle
      is its head: for any other handle, a registered one included, it is
      still scanning the head after any number of iterations. */
  lemma {:induction false} DeleteAsWrittenSpins(hs: seq<HandlerRec>, handle: nat, n: nat)
    requires hs != [] && hs[0].handle != handle
    ensures DeleteRunAsWritten(hs, handle, n) == Scanning(0)
  {
    if n > 0 {
      DeleteAsWrittenSpins(hs, handle, n - 1);
    }
  }

  /** A concrete case: two handlers, deleting the older one. */
  lemma DeleteOlderHandlerSpins(n: nat)
    ensures var hs := [HandlerRec(2, 20, 0), HandlerRec(1, 10, 0)];
            DeleteRunAsWritten(hs, 1, n) == Scanning(0)
  {
    DeleteAsWrittenSpins([HandlerRec(2, 20, 0), HandlerRec(1, 10, 0)], 1, n);
  }

  class Cleanup {
    /** Cleanup has not run yet. */
    var dirty: bool
    /** Registered handlers, newest first. */
    var handlers: seq<HandlerRec>
    /** Addresses below this one have been handed out. */
    var nextHandle: nat

    ghost predicate Valid()
      reads this
    {
      && DistinctHandles(handlers)
      && 0 < nextHandle
      && (forall i :: 0 <= i < |handlers| ==> 0 < handlers[i].handle < nextHandle)
    }

    constructor ()
      ensures Valid() && dirty && handlers == []
    {
      dirty := true;
      handlers := [];
      nextHandle := 1;
    }

    /** Scm_AddCleanupHandler: links a new record at the head and returns it. */
    method AddCleanupHandler(handler: nat, data: nat) returns (handle: nat)
      requires Valid()
      modifies this`handlers, this`nextHandle
      ensures Valid()
      ensures handlers == [HandlerRec(handle, handler, data)] + old(handlers)
      ensures handle != 0 && forall i :: 0 <= i < |old(handlers)| ==> old(handlers)[i].handle != handle
    {
      handle := nextHandle;
      nextHandle := nextHandle + 1;
      handlers := [HandlerRec(handle, handler, data)] + handlers;
    }

    /** Scm_DeleteCleanupHandler with the cursor advanced: unlinks the
        record `handle` names, keeping the others in order, and leaves the
        list alone for any other value. */
    method DeleteCleanupHandler(handle: nat)
      requires Valid()
      modifies this`handlers
      ensures Valid()
      ensures var k := IndexOf(old(handlers), handle);
              handlers == if k < |old(handlers)| then old(handlers)[..k] + old(handlers)[k + 1..] else old(handlers)
      ensures forall i :: 0 <= i < |handlers| ==> handlers[i].handle != handle
    {
      var y := 0;
      while y < |handlers|
        invariant 0 <= y <= |handlers| && handlers == old(handlers)
        invariant forall j :: 0 <= j < y ==> handlers[j].handle != handle
      {
        if handlers[y].handle == handle {
          handlers := handlers[..y] + handlers[y + 1..];
          assert Valid() by {
            forall i, j | 0 <= i < j < |handlers|
              ensures handlers[i].handle != handlers[j].handle
            {
              var i' := if i < y then i else i + 1;
              var j' := if j < y then j else j + 1;
              assert handlers[i] == old(handlers)[i'] && handlers[j] == old(handlers)[j'];
            }
          }
          return;
        }
        y := y + 1;
      }
    }

    /** Scm_Cleanup: the first call clears `dirty` and calls every handler,
        newest first; later calls do nothing.  (Flushing the VM's dynamic
        handlers and the Scheme ports is not part of this model.) */
    method RunCleanup() returns (calls: seq<HandlerCall>)
      modifies this`dirty
      ensures !dirty
      ensures old(dirty) ==> calls == Calls(handlers)
      ensures !old(dirty) ==> calls == []
    {
      calls := [];
      if !dirty {
        return;
      }
      dirty := false;
      var i := 0;
      while i < |handlers|
        invariant 0 <= i <= |handlers| && |calls| == i
        invariant forall j :: 0 <= j < i ==> calls[j] == HandlerCall(handlers[j].handler, handlers[j].data)
      {
        calls := calls + [HandlerCall(handlers[i].handler, handlers[i].data)];
        i := i + 1;
      }
      assert calls == Calls(handlers);
    }
  }

  /** Scm_Cleanup runs the handlers once: of two calls in a row, the second
      makes no call at all. */
  method CleanupTwice(c: Cleanup) returns (first: seq<HandlerCall>, second: seq<HandlerCall>)
    modifies c
    ensures old(c.dirty) ==> first == Calls(c.handlers)
    ensures second == [] && !c.dirty
  {
    first := c.RunCleanup();
    second := c.RunCleanup();
  }
}
