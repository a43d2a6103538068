/** `createModule(initFn)`: a guard that lets the wrapped initialiser run at
    most once. The flag is set before the initialiser is awaited, so a call
    that arrives while the first one is still pending skips it too. */
module ModuleGuard {

  /** The closure returned by `createModule`, with its captured `inited`
      flag. The ghost counters record how often the closure was called and
      how often it started `initFn`. */
  class Module {
    var inited: bool
    ghost var calls: nat
    ghost var starts: nat

    ghost predicate Valid()
      reads this
    {
      starts == (if inited then 1 else 0) && starts <= calls
    }

    constructor()
      ensures Valid() && !inited && calls == 0 && starts == 0
    {
      inited := false;
      calls := 0;
      starts := 0;
    }

    /** One call of the returned function: `initFn` is started exactly when
        no earlier call has started it. */
    method Call() returns (started: bool)
      requires Valid()
      modifies this
      ensures Valid() && starts <= 1
      ensures started == !old(inited)
      ensures inited
      ensures calls == old(calls) + 1
      ensures starts == old(starts) + (if started then 1 else 0)
    {
      calls := calls + 1;
      if inited {
        started := false;
        return;
      }
      inited := true;
      starts := starts + 1;
      started := true;
    }
  }
}
