/**
 The publisher's loops over remote tables, in their own imperative form.  Each method is
 proved to do what the delivery functions of `ModelDelivery` say, so the theorems there
 hold of it.
 */
module ModelPublisher {
  import D = ModelDelivery
  import opened ModelDelivery

  /** A client bound to one remote model whose calls fail by schedule. */
  class Publisher {
    var world: World
    const faults: Faults

    constructor (world: World, faults: Faults)
      ensures this.world == world && this.faults == faults
    {
      this.world, this.faults := world, faults;
    }

    method PostRows(t: string, batch: seq<Row>) returns (ok: bool)
      modifies this
      ensures (world, ok) == D.PostRows(faults, old(world), t, batch)
    {
      ok := !faults(world.calls);
      world := Counted(world);
      if ok { world := world.(rows := world.rows[t := Held(world, t) + batch]); }
    }

    method PushRows(plan: TablePlan) returns (ok: bool)
      modifies this
      ensures (world, ok) == D.PushRows(faults, old(world), plan, 0)
    {
      var start := 0;
      while start < |plan.rows|
        invariant D.PushRows(faults, world, plan, start) == D.PushRows(faults, old(world), plan, 0)
      {
        ok := PostRows(plan.name, plan.rows[start..BatchEnd(plan, start)]);
        if !ok { return; }
        start := start + MAX_ROWS_PER_POST;
      }
      ok := true;
    }

    method ReplaceRows(plan: TablePlan) returns (ok: bool)
      modifies this
      ensures (world, ok) == D.ReplaceRows(faults, old(world), plan)
    {
      ok := !faults(world.calls);
      world := Counted(world);
      if !ok { return; }
      world := world.(rows := world.rows[plan.name := []]);
      ok := PushRows(plan);
    }

    /** Schema updates; `put` counts the plans handled before a call failed. */
    method PutSchemas(listed: map<string, seq<Column>>, plans: seq<TablePlan>) returns (put: nat)
      modifies this
      ensures (world, put) == D.PutSchemas(faults, old(world), listed, plans, 0)
    {
      put := 0;
      while put < |plans|
        invariant put <= |plans|
        invariant D.PutSchemas(faults, world, listed, plans, put) == D.PutSchemas(faults, old(world), listed, plans, 0)
      {
        var plan := plans[put];
        if !(plan.name in listed && listed[plan.name] == plan.columns) {
          var failed := faults(world.calls);
          world := Counted(world);
          if failed { return; }
          world := world.(columns := world.columns[plan.name := plan.columns]);
        }
        put := put + 1;
      }
    }

    /** Puts the replaced tables back; reports each table's state and the ones that are not restored. */
    method Restore(replaced: seq<string>, previous: Previous) returns (states: map<string, TableState>, problems: seq<string>)
      modifies this
      ensures Restoration(world, states, problems) == D.Restore(faults, Restoration(old(world), map[], []), replaced, previous, 0)
      ensures (forall t :: t in replaced ==> t in old(world).rows) ==>
                forall k :: 0 <= k < |replaced| && (forall j :: 0 <= j < |replaced| && j != k ==> replaced[j] != replaced[k]) ==>
                  ReportedIn(Restoration(world, states, problems), old(world).rows[replaced[k]], previous, replaced[k])
    {
      ghost var start := Restoration(world, map[], []);
      states, problems := map[], [];
      for i := 0 to |replaced|
        invariant D.Restore(faults, Restoration(world, states, problems), replaced, previous, i) ==
                  D.Restore(faults, Restoration(old(world), map[], []), replaced, previous, 0)
      {
        var t := replaced[i];
        match PriorOf(previous, t)
        case Absent =>
          states, problems := states[t := NewRows], problems + [t];
        case Unencodable =>
          states, problems := states[t := RestoreFailed], problems + [t];
        case Encoded(rows) =>
          var ok := ReplaceRows(TablePlan(t, [], rows));
          if ok {
            states := states[t := RestoredPrevious];
          } else {
            states, problems := states[t := RestoreFailed], problems + [t];
          }
      }
      hide ReportedIn;
      if forall t :: t in replaced ==> t in start.world.rows {
        forall k | 0 <= k < |replaced| && forall j :: 0 <= j < |replaced| && j != k ==> replaced[j] != replaced[k]
          ensures ReportedIn(Restoration(world, states, problems), start.world.rows[replaced[k]], previous, replaced[k])
        {
          RestoreReports(faults, start, replaced, previous, 0, k);
        }
      }
    }

    /** The row-replacement loop with rollback. */
    method ReplaceOrRollBack(plans: seq<TablePlan>, previous: Previous) returns (o: Outcome)
      modifies this
      ensures (world, o) == D.ReplaceOrRollBack(faults, old(world), plans, previous)
    {
      var replaced: seq<string> := [];
      for i := 0 to |plans|
        invariant replaced == NamesOf(plans[..i])
        invariant ReplaceAll(faults, world, plans, i) == ReplaceAll(faults, old(world), plans, 0)
      {
        var ok := ReplaceRows(plans[i]);
        if !ok {
          if replaced == [] { return DeliveryFailed(i); }
          var states, problems := Restore(replaced, previous);
          return if problems == [] then DeliveryFailed(i) else StateInconsistent(i, states, problems);
        }
        replaced := replaced + [plans[i].name];
        assert NamesOf(plans[..i + 1]) == NamesOf(plans[..i]) + [plans[i].name];
      }
      o := Delivered;
    }

    /** The revision path: whatever calls fail, the delivery guarantee holds. */
    method Revise(plans: seq<TablePlan>, previous: Previous) returns (o: Outcome)
      modifies this
      ensures (world, o) == D.Revise(faults, old(world), plans, previous)
      ensures ReviseGuarantee(old(world), world, o, plans, previous)
    {
      hide ReviseGuarantee;
      ReviseOutcome(faults, world, plans, previous);
      var failed := faults(world.calls);
      var listed, tables := world.columns, world.rows.Keys;
      world := Counted(world);
      if failed { return ListingFailed; }
      if tables != set n | n in NamesOf(plans) { return TableSetChanged; }
      var put := PutSchemas(listed, plans);
      if put < |plans| { return SchemaFailed(put); }
      o := ReplaceOrRollBack(plans, previous);
    }

    /** The create path on a client whose model is still empty; `present` says whether the dataset remains. */
    method Create(plans: seq<TablePlan>) returns (present: bool, o: CreateOutcome)
      modifies this
      ensures var (model, o') := D.Create(faults, old(world).calls, plans);
              o == o' && present == model.Some? && (present ==> world == model.value)
    {
      var failed := faults(world.calls);
      if failed { return false, NotCreated; }
      world := EmptyModel(plans, world.calls + 1);
      ghost var start := world;
      for i := 0 to |plans|
        invariant PushAll(faults, world, plans, i) == PushAll(faults, start, plans, 0)
      {
        var ok := PushRows(plans[i]);
        if !ok {
          var kept := faults(world.calls);
          world := Counted(world);
          return kept, if kept then PartialModelLeft(i) else RolledBack(i);
        }
      }
      var unlisted := faults(world.calls);
      world := Counted(world);
      return true, if unlisted then CompleteButUnlisted else Complete;
    }
  }
}
