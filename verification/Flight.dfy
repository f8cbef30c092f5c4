/** The suppressor's own objects: the critical sections of Do, each tied to the step it is. */
module Flight {
  import opened Base
  import SF = SingleFlight

  class Call {
    var finished: bool
    var val: Result<string>

    constructor ()
      ensures !finished && val == Err("")
    {
      finished, val := false, Err("");
    }
  }

  class Group {
    var m: map<string, Call>
    /** Every call record ever made, and the state machine's view of them. */
    ghost var calls: seq<Call>
    ghost var view: SF.Group

    ghost predicate Valid()
      reads this, calls
    {
      && |calls| == |view.calls|
      && (forall i :: 0 <= i < |calls| ==>
            calls[i].finished == view.calls[i].finished && calls[i].val == view.calls[i].val)
      && (forall i, j :: 0 <= i < j < |calls| ==> calls[i] != calls[j])
      && m.Keys == view.m.Keys
      && forall k :: k in m ==> view.m[k] < |calls| && calls[view.m[k]] == m[k]
    }

    /** c is the record of thread t's current Do. */
    ghost predicate Holds(t: nat, c: Call)
      reads this
    {
      t in view.pc && view.pc[t].c < |calls| && calls[view.pc[t].c] == c
    }

    constructor ()
      ensures Valid() && view == SF.EMPTY
    {
      m, calls, view := map[], [], SF.EMPTY;
    }

    /** Start a call for a key with none in flight. */
    method Lead(key: string, ghost t: nat) returns (c: Call)
      requires Valid() && t !in view.pc && key !in m
      modifies this
      ensures Valid() && SF.Enabled(old(view), t, SF.Enter(key)) && view == SF.Apply(old(view), t, SF.Enter(key))
      ensures Holds(t, c) && view.pc[t].Running?
    {
      c := new Call();
      view := SF.Apply(view, t, SF.Enter(key));
      m := m[key := c];
      calls := calls + [c];
    }

    /** Join the call in flight for the key, or start one and lead it. */
    method Enter(key: string, ghost t: nat) returns (c: Call, leader: bool)
      requires Valid() && t !in view.pc
      modifies this
      ensures Valid() && SF.Enabled(old(view), t, SF.Enter(key)) && view == SF.Apply(old(view), t, SF.Enter(key))
      ensures Holds(t, c) && (leader <==> view.pc[t].Running?)
    {
      if key in m {
        c, leader := m[key], false;
        view := SF.Apply(view, t, SF.Enter(key));
      } else {
        c := Lead(key, t);
        leader := true;
      }
    }

    /** The function has returned: store its result and release the waiters. */
    method Publish(c: Call, r: Result<string>, ghost t: nat)
      requires Valid() && Holds(t, c) && SF.Enabled(view, t, SF.FnReturns(r))
      modifies this`view, c
      ensures Valid() && view == SF.Apply(old(view), t, SF.FnReturns(r)) && Holds(t, c)
    {
      c.finished, c.val := true, r;
      view := SF.Apply(view, t, SF.FnReturns(r));
    }

    /** The leader deletes the entry of its key and returns the record's result. */
    method Leave(key: string, c: Call, ghost t: nat) returns (r: Result<string>)
      requires Valid() && Holds(t, c) && SF.Enabled(view, t, SF.Delete) && view.calls[view.pc[t].c].key == key
      modifies this
      ensures Valid() && view == SF.Apply(old(view), t, SF.Delete)
      ensures Holds(t, c) && view.pc[t].Returned? && view.pc[t].r == r
    {
      m := m - {key};
      view := SF.Apply(view, t, SF.Delete);
      r := c.val;
    }

    /** A waiter released by the leader returns the record's result. */
    method Wake(c: Call, ghost t: nat) returns (r: Result<string>)
      requires Valid() && Holds(t, c) && SF.Enabled(view, t, SF.Wake)
      modifies this`view
      ensures Valid() && view == SF.Apply(old(view), t, SF.Wake)
      ensures Holds(t, c) && view.pc[t].Returned? && view.pc[t].r == r
    {
      view := SF.Apply(view, t, SF.Wake);
      r := c.val;
    }
  }
}
