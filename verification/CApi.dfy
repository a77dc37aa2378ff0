/** The C API's registry of manager handles: calls in progress and the flag of a destroying
    thread, kept for each handle under one global mutex. */
module CApi {
  import opened SwapTypes
  import opened ManagerSpec

  type Handle = nat

  class ApiRegistry {
    var managers: map<Handle, (nat, bool)>

    /** What the registry says about one handle. */
    function Of(h: Handle): Api
      reads this
    {
      if h in managers then Present(managers[h].0, managers[h].1) else Gone
    }

    constructor ()
      ensures forall h :: Of(h) == Gone
    {
      managers := map[];
    }

    method RegisterManager(h: Handle)
      modifies this
      ensures Of(h) == if old(Of(h)).Gone? then Present(0, false) else old(Of(h))
      ensures forall g :: g != h ==> Of(g) == old(Of(g))
    {
      if h !in managers {
        managers := managers[h := (0, false)];
      }
    }

    /** The call guard's constructor. */
    method EnterCall(h: Handle) returns (code: Code)
      modifies this
      ensures (Of(h), code) == ManagerSpec.EnterCall(old(Of(h)))
      ensures forall g :: g != h ==> Of(g) == old(Of(g))
    {
      if h !in managers || managers[h].1 {
        return ShuttingDown;
      }
      managers := managers[h := (AddWrap(U32, managers[h].0, 1), managers[h].1)];
      return Ok;
    }

    /** The call guard's destructor. */
    method LeaveCall(h: Handle)
      modifies this
      ensures Of(h) == ManagerSpec.LeaveCall(old(Of(h)))
      ensures forall g :: g != h ==> Of(g) == old(Of(g))
    {
      if h in managers && managers[h].0 > 0 {
        managers := managers[h := (managers[h].0 - 1, managers[h].1)];
      }
    }

    method BeginDestroy(h: Handle) returns (code: Code)
      modifies this
      ensures (Of(h), code) == ManagerSpec.BeginDestroy(old(Of(h)))
      ensures forall g :: g != h ==> Of(g) == old(Of(g))
    {
      if h !in managers {
        return ShuttingDown;
      }
      if managers[h].1 || managers[h].0 > 0 {
        return Busy;
      }
      managers := managers[h := (managers[h].0, true)];
      return Ok;
    }

    method RestoreDestroyable(h: Handle)
      modifies this
      ensures Of(h) == ManagerSpec.RestoreDestroyable(old(Of(h)))
      ensures forall g :: g != h ==> Of(g) == old(Of(g))
    {
      if h in managers {
        managers := managers[h := (managers[h].0, false)];
      }
    }

    method UnregisterManager(h: Handle)
      modifies this
      ensures Of(h) == Gone
      ensures forall g :: g != h ==> Of(g) == old(Of(g))
    {
      managers := managers - {h};
    }
  }
}
