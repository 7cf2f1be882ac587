/**
 * ImHexApi::Provider as a class: file-level statics updated in place, with
 * the task manager consulted before every mutation and asked to run the
 * second half of a removal once no task is running.  Every method is proved
 * to move the registry exactly as the matching function of ProviderSpec
 * says; remove()'s selection fix-up uses the corrected third branch (see
 * ProviderSpec.Reindex and ProviderSpec.ReindexAsWritten).
 */
module ProviderRegistry {

  import opened Wrappers
  import opened MachineInt
  import opened ProviderSpec

  /**
   * The two task-manager primitives the registry uses: the running-task
   * count and the continuations waiting for it to reach zero.  A waiting
   * continuation is the deferred half of removing the provider it names.
   */
  class TaskManager {
    var runningTasks: nat
    var pending: seq<ProviderId>

    constructor ()
      ensures runningTasks == 0 && pending == []
    {
      runningTasks := 0;
      pending := [];
    }

    /** A background task starts. */
    method TaskStarted()
      modifies this
      ensures runningTasks == old(runningTasks) + 1 && pending == old(pending)
    {
      runningTasks := runningTasks + 1;
    }

    /** A background task finishes. */
    method TaskFinished()
      requires runningTasks > 0
      modifies this
      ensures runningTasks == old(runningTasks) - 1 && pending == old(pending)
    {
      runningTasks := runningTasks - 1;
    }

    /** runWhenTasksFinished: queue a continuation. */
    method RunWhenTasksFinished(provider: ProviderId)
      modifies this
      ensures pending == old(pending) + [provider] && runningTasks == old(runningTasks)
    {
      pending := pending + [provider];
    }

    /** Take the oldest continuation, which may run only when no task runs. */
    method TakeNext() returns (provider: ProviderId)
      requires runningTasks == 0 && |pending| > 0
      modifies this
      ensures provider == old(pending[0]) && pending == old(pending[1..])
      ensures runningTasks == old(runningTasks)
    {
      provider := pending[0];
      pending := pending[1..];
    }
  }

  class Registry {
    var providers: seq<Provider>
    var current: int
    var closing: seq<ProviderId>
    var events: seq<Event>
    const tasks: TaskManager

    /** The registry and the task-manager primitives as one value. */
    function Snapshot(): State
      reads this, tasks
    {
      State(providers, current, closing, events, tasks.runningTasks, tasks.pending)
    }

    ghost predicate Valid()
      reads this, tasks
    {
      Inv(Snapshot())
    }

    constructor (tasks: TaskManager)
      ensures Valid() && this.tasks == tasks
      ensures providers == [] && current == -1 && closing == [] && events == []
    {
      this.tasks := tasks;
      providers := [];
      current := -1;
      closing := [];
      events := [];
    }

    /** getProviders(): copies the identities one by one. */
    method GetProviders() returns (ids: seq<ProviderId>)
      ensures ids == Ids(providers)
    {
      ids := [];
      for i := 0 to |providers|
        invariant ids == Ids(providers[..i])
      {
        assert providers[..i + 1] == providers[..i] + [providers[i]];
        ids := ids + [providers[i].id];
      }
      assert providers[..|providers|] == providers;
    }

    /** isDirty(): scans for a dirty provider. */
    method IsDirty() returns (dirty: bool)
      ensures dirty <==> exists i :: 0 <= i < |providers| && providers[i].dirty
      ensures dirty == AnyDirty(providers)
    {
      dirty := false;
      var i := 0;
      while i < |providers| && !dirty
        invariant 0 <= i <= |providers|
        invariant dirty <==> exists j :: 0 <= j < i && providers[j].dirty
      {
        dirty := providers[i].dirty;
        i := i + 1;
      }
    }

    /** find_if over the providers by identity. */
    method Find(id: ProviderId) returns (k: nat)
      ensures k <= |providers|
      ensures k < |providers| <==> id in Ids(providers)
      ensures k < |providers| ==> k == IndexOf(providers, id)
    {
      k := 0;
      while k < |providers| && providers[k].id != id
        invariant k <= |providers|
        invariant forall j :: 0 <= j < k ==> providers[j].id != id
      {
        k := k + 1;
      }
      if k < |providers| {
        assert Ids(providers)[k] == id;
        var i := IndexOf(providers, id);
        assert !(i < k) && !(k < i);
      }
    }

    /** setCurrentProvider(index) */
    method SetCurrentProvider(index: u32)
      modifies this
      ensures Snapshot() == SetCurrent(old(Snapshot()), index)
    {
      if tasks.runningTasks > 0 {
        return;
      }
      if index < |providers| && current != index {
        var oldProvider := Get(Snapshot());
        current := index;
        events := events + [ProviderChanged(oldProvider, Get(Snapshot()))];
      }
    }

    /** add(provider, skipLoadInterface, select) */
    method Add(provider: Provider, skipLoadInterface: bool, select: bool)
      requires Valid() && provider.id !in Ids(providers)
      modifies this
      ensures Valid()
      ensures Snapshot() == ProviderSpec.Add(old(Snapshot()), provider, skipLoadInterface, select)
    {
      AddPreservesInv(Snapshot(), provider, skipLoadInterface, select);
      if tasks.runningTasks > 0 {
        return;
      }
      AppendProvider(provider, skipLoadInterface);
      if select || |providers| == 1 {
        SetCurrentProvider(ToU32(|providers| - 1));
      }
    }

    /** The first half of add(): append the provider and post ProviderCreated. */
    method AppendProvider(provider: Provider, skipLoadInterface: bool)
      modifies this
      ensures Snapshot() == Appended(old(Snapshot()), provider, skipLoadInterface)
    {
      var added := provider.(skipLoadInterface := provider.skipLoadInterface || skipLoadInterface);
      events := events + [ProviderCreated(provider.id)];
      providers := providers + [added];
    }

    /** markDirty(): the current provider becomes dirty. */
    method MarkDirty()
      requires IsValid(Snapshot())
      modifies this
      ensures Snapshot() == ProviderSpec.MarkDirty(old(Snapshot()))
    {
      providers := providers[current := providers[current].(dirty := true)];
    }

    /** resetDirty(): clears every provider's dirty flag. */
    method ResetDirty()
      modifies this
      ensures Snapshot() == ProviderSpec.ResetDirty(old(Snapshot()))
      ensures !AnyDirty(providers)
    {
      ghost var before := providers;
      for i := 0 to |providers|
        invariant |providers| == |before|
        invariant forall j :: 0 <= j < i ==> providers[j] == before[j].(dirty := false)
        invariant forall j :: i <= j < |providers| ==> providers[j] == before[j]
        invariant current == old(current) && closing == old(closing) && events == old(events)
      {
        providers := providers[i := providers[i].(dirty := false)];
      }
      assert providers == ClearDirty(before);
    }

    /** impl::resetClosingProvider(): forget every provider being closed. */
    method ResetClosingProviders()
      modifies this
      ensures Snapshot() == old(Snapshot()).(closing := [])
    {
      closing := [];
    }

    /**
     * remove(provider, noQuestions), synchronous phase; `veto` is the answer
     * of the ProviderClosing subscribers.
     */
    method Remove(provider: Option<ProviderId>, noQuestions: bool, veto: bool)
      requires Valid()
      modifies this, tasks
      ensures Valid()
      ensures Snapshot() == ProviderSpec.Remove(old(Snapshot()), provider, noQuestions, veto)
    {
      ghost var s := Snapshot();
      if provider.None? {
        return;
      }
      if tasks.runningTasks > 0 {
        return;
      }
      var id := provider.value;
      if !noQuestions {
        closing := closing + [id];
        events := events + [ProviderClosing(id)];
        if veto {
          return;
        }
      }
      ghost var asked := Snapshot();
      assert asked == Ask(s, id, noQuestions);
      var k := Find(id);
      if k == |providers| {
        return;
      }
      CloseAt(k);
    }

    /** The confirmed part of remove() for the provider at position k. */
    method CloseAt(k: nat)
      requires k < |providers|
      modifies this, tasks
      ensures Snapshot() == Close(old(Snapshot()), k)
    {
      var id := providers[k].id;
      FixSelection(k);
      providers := providers[k := providers[k].(closed := true)];
      events := events + [ProviderClosed(id), UpdateWindowTitle];
      tasks.RunWhenTasksFinished(id);
    }

    /**
     * The selection fix-up before the provider at position k is closed:
     * the three branches of remove(), with the third one corrected (see
     * ProviderSpec.Reindex).
     */
    method FixSelection(k: nat)
      requires k < |providers|
      modifies this
      ensures Snapshot() == Reindex(old(Snapshot()), k)
    {
      if k == 0 {
        SelectFirstProvider();
      } else if k == current {
        SetCurrentProvider(ToU32(current - 1));
      } else {
        RelocateCurrent(k);
      }
    }

    /** The first branch of the fix-up: select index 0 and announce 0 -> 1. */
    method SelectFirstProvider()
      modifies this
      ensures Snapshot() == SelectFirst(old(Snapshot()))
    {
      SetCurrentProvider(0);
      if |providers| > 1 {
        events := events + [ProviderChanged(Some(providers[0].id), Some(providers[1].id))];
      }
    }

    /** The third branch of the fix-up, as corrected. */
    method RelocateCurrent(k: nat)
      modifies this
      ensures Snapshot() == Relocate(old(Snapshot()), k)
    {
      var currentProvider := Get(Snapshot());
      if currentProvider.Some? {
        var n := Find(currentProvider.value);
        var newIndex := if k < n then n - 1 else n;
        SetCurrentProvider(ToU32(newIndex));
      } else {
        SetCurrentProvider(0);
      }
    }

    /** The deferred phase of the oldest confirmed removal. */
    method RunNextDeferred()
      requires Valid() && tasks.runningTasks == 0 && |tasks.pending| > 0
      modifies this, tasks
      ensures Valid()
      ensures Snapshot() == FinishRemoval(old(Snapshot()))
    {
      var id := DeleteNext();
      SettleAfterDelete(id);
    }

    /** Takes the oldest continuation and erases its provider everywhere. */
    method DeleteNext() returns (id: ProviderId)
      requires |tasks.pending| > 0 && tasks.runningTasks == 0
      modifies this, tasks
      ensures id == old(tasks.pending[0])
      ensures Snapshot() == Dequeued(old(Snapshot()))
    {
      ghost var s := Snapshot();
      id := tasks.TakeNext();
      events := events + [ProviderDeleted(id)];
      closing := EraseAll(closing, id);
      var k := Find(id);
      if k < |providers| {
        providers := providers[..k] + providers[k + 1..];
      }
      assert providers == Erase(s.providers, id);
    }

    /** Repairs the selection once `id` has been erased. */
    method SettleAfterDelete(id: ProviderId)
      requires tasks.runningTasks == 0
      modifies this
      ensures Snapshot() == Settled(old(Snapshot()), id)
    {
      if current >= |providers| {
        SetCurrentProvider(0);
      }
      if |providers| == 0 {
        events := events + [ProviderChanged(Some(id), None)];
      }
    }

    /** std::erase over the closing list, one element at a time. */
    static method EraseAll(xs: seq<ProviderId>, id: ProviderId) returns (r: seq<ProviderId>)
      ensures r == Without(xs, id)
    {
      r := [];
      for i := 0 to |xs|
        invariant r == Without(xs[..i], id)
      {
        assert xs[..i + 1][..i] == xs[..i];
        if xs[i] != id {
          r := r + [xs[i]];
        }
      }
      assert xs[..|xs|] == xs;
    }
  }
}
