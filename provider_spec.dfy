/**
 * The provider registry of ImHexApi::Provider as a state machine over values.
 *
 * The registry owns an ordered sequence of providers, a signed "current"
 * index (initially -1) and a list of providers that are being closed.  Every
 * mutator is gated on the task manager's running-task count, and a removal
 * is split into a synchronous phase and a deferred phase that the task
 * manager runs once no task is running.  Events are appended to a log so
 * that their order can be specified.
 *
 * The class ProviderRegistry.Registry updates its fields in place and is
 * proved to follow the functions below.
 */
module ProviderSpec {

  import opened Wrappers
  import opened MachineInt

  /** Identity of a provider object; in the source, its address. */
  type ProviderId = nat

  /** What the registry sees of one provider object. */
  datatype Provider = Provider(id: ProviderId, dirty: bool, closed: bool, skipLoadInterface: bool)

  /** Events posted on the event bus, in posting order. */
  datatype Event =
    | ProviderCreated(provider: ProviderId)
    | ProviderChanged(from: Option<ProviderId>, to: Option<ProviderId>)
    | ProviderClosing(provider: ProviderId)
    | ProviderClosed(provider: ProviderId)
    | ProviderDeleted(provider: ProviderId)
    | UpdateWindowTitle

  /**
   * The registry's statics (s_providers, s_currentProvider,
   * s_closingProviders), the event log, and the two task-manager primitives
   * the registry depends on: the running-task count and the queue of
   * continuations waiting for it to reach zero.  A pending continuation is
   * the deferred phase of removing the provider it names.
   */
  datatype State = State(
    providers: seq<Provider>,
    current: int,
    closing: seq<ProviderId>,
    events: seq<Event>,
    runningTasks: nat,
    pending: seq<ProviderId>)

  /** The state at program start: no provider, current index -1. */
  const Initial: State := State([], -1, [], [], 0, [])

  /** getProviders(): the identities, in order. */
  function Ids(ps: seq<Provider>): (ids: seq<ProviderId>)
    ensures |ids| == |ps|
    ensures forall i :: 0 <= i < |ps| ==> ids[i] == ps[i].id
  {
    seq(|ps|, i requires 0 <= i < |ps| => ps[i].id)
  }

  /** No provider object is owned twice (each is held by a unique_ptr). */
  predicate UniqueIds(ps: seq<Provider>)
  {
    forall i, j :: 0 <= i < j < |ps| ==> ps[i].id != ps[j].id
  }

  /**
   * The registry invariant: providers are distinct, a non-empty registry has
   * an in-range current index, and an empty one has -1 (never selected) or
   * 0 (left behind when the last provider was removed).
   */
  predicate Inv(s: State)
  {
    && UniqueIds(s.providers)
    && -1 <= s.current
    && (|s.providers| > 0 ==> 0 <= s.current < |s.providers|)
    && (|s.providers| == 0 ==> s.current <= 0)
  }

  /** isValid() */
  predicate IsValid(s: State)
  {
    |s.providers| > 0 && 0 <= s.current < |s.providers|
  }

  /** get(): the current provider, or null when the registry is not valid. */
  function Get(s: State): (r: Option<ProviderId>)
    ensures r.None? <==> !IsValid(s)
    ensures IsValid(s) ==> r == Some(s.providers[s.current].id)
    ensures r.Some? ==> r.value in Ids(s.providers)
  {
    if IsValid(s) then Some(s.providers[s.current].id) else None
  }

  /** Under the invariant, isValid() is exactly "some provider is open". */
  lemma ValidIffNonEmpty(s: State)
    requires Inv(s)
    ensures IsValid(s) <==> |s.providers| > 0
    ensures Get(s) == None <==> s.providers == []
  {
  }

  /** isDirty(): some provider is dirty (std::ranges::any_of). */
  function AnyDirty(ps: seq<Provider>): (r: bool)
    ensures r <==> exists i :: 0 <= i < |ps| && ps[i].dirty
  {
    if ps == [] then false else ps[0].dirty || AnyDirty(ps[1..])
  }

  /** The position of the first provider with identity `id` (find_if). */
  function IndexOf(ps: seq<Provider>, id: ProviderId): (k: nat)
    requires id in Ids(ps)
    ensures k < |ps| && ps[k].id == id
    ensures forall j :: 0 <= j < k ==> ps[j].id != id
  {
    if ps[0].id == id then 0
    else
      assert Ids(ps) == [ps[0].id] + Ids(ps[1..]);
      1 + IndexOf(ps[1..], id)
  }

  /** Under UniqueIds, the position of a provider is determined by its identity. */
  lemma IndexOfUnique(ps: seq<Provider>, k: nat)
    requires UniqueIds(ps) && k < |ps|
    ensures ps[k].id in Ids(ps) && IndexOf(ps, ps[k].id) == k
  {
  }

  /** std::erase(v, id): every occurrence removed, the rest kept in order. */
  function Without(xs: seq<ProviderId>, id: ProviderId): (r: seq<ProviderId>)
    ensures forall x :: x in r <==> x in xs && x != id
    ensures multiset(r) == multiset(xs)[id := 0]
    ensures |r| <= |xs|
    ensures id !in xs ==> r == xs
  {
    if xs == [] then []
    else
      var init := xs[..|xs| - 1];
      assert xs == init + [xs[|xs| - 1]];
      Without(init, id) + (if xs[|xs| - 1] == id then [] else [xs[|xs| - 1]])
  }

  /**
   * The erase keeps the order of what it keeps: erasing from a concatenation
   * erases from each part and concatenates the results.
   */
  lemma {:induction false} WithoutConcat(xs: seq<ProviderId>, ys: seq<ProviderId>, id: ProviderId)
    ensures Without(xs + ys, id) == Without(xs, id) + Without(ys, id)
    decreases |ys|
  {
    if ys != [] {
      var init := ys[..|ys| - 1];
      var last := ys[|ys| - 1];
      assert (xs + ys)[..|xs + ys| - 1] == xs + init;
      assert (xs + ys)[|xs + ys| - 1] == last;
      WithoutConcat(xs, init, id);
    } else {
      assert xs + ys == xs;
    }
  }

  /** vector::erase of the element holding provider `id`, if it is there. */
  function Erase(ps: seq<Provider>, id: ProviderId): (r: seq<Provider>)
    ensures id !in Ids(ps) ==> r == ps
    ensures id in Ids(ps) ==>
      (var k := IndexOf(ps, id);
       && |r| == |ps| - 1
       && (forall j :: 0 <= j < k ==> r[j] == ps[j])
       && (forall j :: k <= j < |r| ==> r[j] == ps[j + 1]))
  {
    if id in Ids(ps) then
      var k := IndexOf(ps, id);
      ps[..k] + ps[k + 1..]
    else ps
  }

  /** Erasing keeps the identities unique and removes exactly `id`. */
  lemma EraseUnique(ps: seq<Provider>, id: ProviderId)
    requires UniqueIds(ps)
    ensures UniqueIds(Erase(ps, id))
    ensures id !in Ids(Erase(ps, id))
    ensures forall x :: x in Ids(Erase(ps, id)) <==> x in Ids(ps) && x != id
  {
    var r := Erase(ps, id);
    if id in Ids(ps) {
      var k := IndexOf(ps, id);
      forall i, j | 0 <= i < j < |r| ensures r[i].id != r[j].id {
        var i' := if i < k then i else i + 1;
        var j' := if j < k then j else j + 1;
        assert r[i] == ps[i'] && r[j] == ps[j'] && i' < j';
      }
      forall x ensures x in Ids(r) <==> x in Ids(ps) && x != id {
        if x in Ids(r) {
          var i :| 0 <= i < |r| && Ids(r)[i] == x;
          var i' := if i < k then i else i + 1;
          assert r[i] == ps[i'];
          assert Ids(ps)[i'] == x;
          assert i' != k;
        }
        if x in Ids(ps) && x != id {
          var i :| 0 <= i < |ps| && Ids(ps)[i] == x;
          assert i != k;
          var i' := if i < k then i else i - 1;
          assert r[i'] == ps[i];
          assert Ids(r)[i'] == x;
        }
      }
    }
  }

  /** `after` extends `before` by at most two ProviderChanged events and nothing else. */
  predicate OnlyChanges(before: seq<Event>, after: seq<Event>)
  {
    && |before| <= |after| <= |before| + 2
    && after[..|before|] == before
    && forall i :: |before| <= i < |after| ==> after[i].ProviderChanged?
  }

  /**
   * setCurrentProvider(index): gated on running tasks; switches only to an
   * in-range index that differs from the current one, and then posts
   * ProviderChanged(old get(), new get()).
   */
  function SetCurrent(s: State, index: u32): (r: State)
    ensures r.providers == s.providers && r.closing == s.closing
    ensures r.runningTasks == s.runningTasks && r.pending == s.pending
    ensures s.runningTasks > 0 ==> r == s
    ensures r != s <==> s.runningTasks == 0 && index < |s.providers| && s.current != index
    ensures r != s ==> r.current == index && Get(r) == Some(s.providers[index].id) &&
                       r.events == s.events + [ProviderChanged(Get(s), Get(r))]
    ensures r == s || r.current == index
    ensures Inv(s) ==> Inv(r)
  {
    if s.runningTasks == 0 && index < |s.providers| && s.current != index then
      var t := s.(current := index);
      t.(events := s.events + [ProviderChanged(Get(s), Get(t))])
    else s
  }

  /**
   * add(provider, skipLoadInterface, select): gated; posts ProviderCreated,
   * appends the provider, and selects it when asked to or when it is the
   * only one.
   */
  function Add(s: State, p: Provider, skipLoadInterface: bool, select: bool): (r: State)
    ensures s.runningTasks > 0 ==> r == s
    ensures s.runningTasks == 0 ==>
      && r.providers == s.providers + [p.(skipLoadInterface := p.skipLoadInterface || skipLoadInterface)]
      && |r.events| > |s.events|
      && r.events[..|s.events| + 1] == s.events + [ProviderCreated(p.id)]
    ensures r.closing == s.closing && r.pending == s.pending && r.runningTasks == s.runningTasks
  {
    if s.runningTasks > 0 then s
    else
      var t := Appended(s, p, skipLoadInterface);
      if select || |t.providers| == 1 then SetCurrent(t, ToU32(|t.providers| - 1)) else t
  }

  /** The first half of add(): the provider is appended and ProviderCreated posted. */
  function Appended(s: State, p: Provider, skipLoadInterface: bool): (r: State)
    ensures r.providers == s.providers + [p.(skipLoadInterface := p.skipLoadInterface || skipLoadInterface)]
    ensures r.events == s.events + [ProviderCreated(p.id)]
    ensures r.current == s.current && r.closing == s.closing
    ensures r.pending == s.pending && r.runningTasks == s.runningTasks
  {
    var added := p.(skipLoadInterface := p.skipLoadInterface || skipLoadInterface);
    s.(providers := s.providers + [added], events := s.events + [ProviderCreated(p.id)])
  }

  /** Appending a provider that is not yet owned keeps identities unique. */
  lemma AppendUnique(ps: seq<Provider>, p: Provider)
    requires UniqueIds(ps) && p.id !in Ids(ps)
    ensures UniqueIds(ps + [p])
  {
    var qs := ps + [p];
    forall i, j | 0 <= i < j < |qs| ensures qs[i].id != qs[j].id {
      if j == |ps| {
        assert Ids(ps)[i] == qs[i].id;
      }
    }
  }

  /** add() keeps the registry invariant. */
  lemma AddPreservesInv(s: State, p: Provider, skipLoadInterface: bool, select: bool)
    requires Inv(s) && p.id !in Ids(s.providers)
    ensures Inv(Add(s, p, skipLoadInterface, select))
  {
    if s.runningTasks == 0 {
      AppendUnique(s.providers, p.(skipLoadInterface := p.skipLoadInterface || skipLoadInterface));
    }
  }

  /**
   * The new provider becomes current exactly when `select` is set or it is
   * the only one; ProviderChanged follows ProviderCreated exactly when the
   * current index moves, which it does not when a stale index 0 already
   * denotes the new sole provider.
   */
  lemma AddSelection(s: State, p: Provider, skipLoadInterface: bool, select: bool)
    requires Inv(s) && s.runningTasks == 0 && |s.providers| < U32_LIMIT
    ensures var r := Add(s, p, skipLoadInterface, select);
      && (r.current == |s.providers| <==> select || |s.providers| == 0)
      && (r.current != |s.providers| ==> r.current == s.current)
      && (r.current == s.current ==> r.events == s.events + [ProviderCreated(p.id)])
      && (r.current != s.current ==>
            r.events == s.events + [ProviderCreated(p.id), ProviderChanged(Get(s), Some(p.id))])
  {
    var added := p.(skipLoadInterface := p.skipLoadInterface || skipLoadInterface);
    var t := s.(providers := s.providers + [added], events := s.events + [ProviderCreated(p.id)]);
    assert s.current != |s.providers| || s.providers == [];
    if s.current != |s.providers| && s.providers != [] {
      assert IsValid(s) && IsValid(t) && t.providers[t.current] == s.providers[s.current];
      assert Get(t) == Get(s);
    }
    if s.providers == [] {
      assert !IsValid(s);
      assert t.current == -1 ==> !IsValid(t);
    }
  }

  /** markDirty(): marks the current provider; the source dereferences get() unchecked. */
  function MarkDirty(s: State): (r: State)
    requires IsValid(s)
    ensures AnyDirty(r.providers)
    ensures |r.providers| == |s.providers|
    ensures r.providers[s.current] == s.providers[s.current].(dirty := true)
    ensures Ids(r.providers) == Ids(s.providers) && r.current == s.current
    ensures forall i :: 0 <= i < |s.providers| && i != s.current ==> r.providers[i] == s.providers[i]
    ensures r.closing == s.closing && r.events == s.events
    ensures r.pending == s.pending && r.runningTasks == s.runningTasks
    ensures Inv(s) ==> Inv(r)
  {
    var r := s.(providers := s.providers[s.current := s.providers[s.current].(dirty := true)]);
    assert r.providers[s.current].dirty;
    r
  }

  /** resetDirty(): every provider's dirty flag cleared, nothing else touched. */
  function ClearDirty(ps: seq<Provider>): (r: seq<Provider>)
    ensures !AnyDirty(r)
    ensures Ids(r) == Ids(ps)
    ensures forall i :: 0 <= i < |ps| ==> r[i] == ps[i].(dirty := false)
  {
    if ps == [] then [] else [ps[0].(dirty := false)] + ClearDirty(ps[1..])
  }

  function ResetDirty(s: State): (r: State)
    ensures !AnyDirty(r.providers) && Ids(r.providers) == Ids(s.providers)
    ensures r.providers == ClearDirty(s.providers)
    ensures r.current == s.current && r.closing == s.closing && r.events == s.events
    ensures r.pending == s.pending && r.runningTasks == s.runningTasks
    ensures Inv(s) ==> Inv(r)
  {
    s.(providers := ClearDirty(s.providers))
  }

  /**
   * The selection fix-up that remove() performs before closing the provider
   * at position k, exactly as written: position 0 selects index 0 and
   * announces the change from the element at 0 to the one at 1; the current
   * element selects current-1; any other element re-locates the current
   * provider and, since it is found at the recorded index, requests
   * current-1 (a request for -1 becomes 2^32-1 through the u32 parameter).
   */
  function ReindexAsWritten(s: State, k: nat): (r: State)
    requires k < |s.providers|
    ensures r.providers == s.providers && r.closing == s.closing
    ensures r.runningTasks == s.runningTasks && r.pending == s.pending
    ensures OnlyChanges(s.events, r.events)
    ensures Inv(s) ==> Inv(r)
  {
    if k == 0 then
      SelectFirst(s)
    else if k == s.current then
      SetCurrent(s, ToU32(s.current - 1))
    else
      match Get(s)
      case Some(cur) =>
        var n := IndexOf(s.providers, cur);
        SetCurrent(s, ToU32(if s.current == n then n - 1 else n))
      case None => SetCurrent(s, 0)
  }

  /** In the third branch the current provider is always found at the current index. */
  lemma AsWrittenRequestsPrevious(s: State, k: nat)
    requires Inv(s) && s.runningTasks == 0 && k < |s.providers| && k != 0 && k != s.current
    ensures ReindexAsWritten(s, k) == SetCurrent(s, ToU32(s.current - 1))
  {
    assert Get(s) == Some(s.providers[s.current].id);
    IndexOfUnique(s.providers, s.current);
  }

  /**
   * The same fix-up with the third branch corrected: the current provider,
   * found at index n, will sit at n-1 after the deferred erase only when the
   * removed element lies before it; otherwise its index stays n.
   */
  function Reindex(s: State, k: nat): (r: State)
    requires k < |s.providers|
    ensures r.providers == s.providers && r.closing == s.closing
    ensures r.runningTasks == s.runningTasks && r.pending == s.pending
    ensures OnlyChanges(s.events, r.events)
    ensures Inv(s) ==> Inv(r)
    ensures k == 0 || k == s.current ==> r == ReindexAsWritten(s, k)
  {
    if k == 0 then
      SelectFirst(s)
    else if k == s.current then
      SetCurrent(s, ToU32(s.current - 1))
    else
      Relocate(s, k)
  }

  /**
   * The fix-up for closing position 0: index 0 is selected and the change
   * from the element at 0 to the one at 1 is announced.
   */
  function SelectFirst(s: State): (r: State)
    ensures r.providers == s.providers && r.closing == s.closing
    ensures r.runningTasks == s.runningTasks && r.pending == s.pending
    ensures OnlyChanges(s.events, r.events)
    ensures Inv(s) ==> Inv(r)
    ensures s.runningTasks == 0 && s.providers != [] ==> r.current == 0
    ensures r.current == SetCurrent(s, 0).current
    ensures r.events == SetCurrent(s, 0).events +
      (if |s.providers| > 1 then [ProviderChanged(Some(s.providers[0].id), Some(s.providers[1].id))] else [])
  {
    var t := SetCurrent(s, 0);
    if |t.providers| > 1 then
      t.(events := t.events + [ProviderChanged(Some(t.providers[0].id), Some(t.providers[1].id))])
    else t
  }

  /**
   * The corrected third branch: the current provider, found at index n,
   * is requested at the index it will have once position k is erased.
   */
  function Relocate(s: State, k: nat): (r: State)
    ensures r.providers == s.providers && r.closing == s.closing
    ensures r.runningTasks == s.runningTasks && r.pending == s.pending
    ensures OnlyChanges(s.events, r.events)
    ensures Inv(s) ==> Inv(r)
  {
    match Get(s)
    case Some(cur) =>
      var n := IndexOf(s.providers, cur);
      SetCurrent(s, ToU32(if k < n then n - 1 else n))
    case None => SetCurrent(s, 0)
  }

  /**
   * The first step of remove() when questions are asked: the provider joins
   * the closing list and ProviderClosing is posted, before the veto is known.
   */
  function Ask(s: State, id: ProviderId, noQuestions: bool): (r: State)
    ensures r.providers == s.providers && r.current == s.current
    ensures r.runningTasks == s.runningTasks && r.pending == s.pending
    ensures r.closing == s.closing + (if noQuestions then [] else [id])
    ensures r.events == s.events + (if noQuestions then [] else [ProviderClosing(id)])
  {
    if noQuestions then s
    else s.(closing := s.closing + [id], events := s.events + [ProviderClosing(id)])
  }

  /**
   * remove(provider, noQuestions), synchronous phase.  `veto` is what the
   * ProviderClosing subscribers answer.  Null and gated calls change nothing;
   * a vetoed call, or one naming a provider that is not in the registry,
   * leaves only the closing-list entry and the ProviderClosing event behind.
   * A confirmed removal fixes the selection up, closes the provider, posts
   * ProviderClosed and a window-title refresh, and queues the deferred phase.
   */
  function Remove(s: State, p: Option<ProviderId>, noQuestions: bool, veto: bool): (r: State)
    ensures r.runningTasks == s.runningTasks
    ensures p.None? || s.runningTasks > 0 ==> r == s
    ensures p.Some? && s.runningTasks == 0 && ((!noQuestions && veto) || p.value !in Ids(s.providers)) ==>
              r == Ask(s, p.value, noQuestions)
    ensures Inv(s) ==> Inv(r)
  {
    if p.None? || s.runningTasks > 0 then s
    else
      var id := p.value;
      var asked := Ask(s, id, noQuestions);
      if !noQuestions && veto then asked
      else if id !in Ids(asked.providers) then asked
      else Close(asked, IndexOf(asked.providers, id))
  }

  /**
   * The confirmed part of remove(): the selection fix-up, then close() on
   * the provider at k, ProviderClosed and a window-title refresh, and the
   * deferred phase queued behind any earlier one.
   */
  function Close(s: State, k: nat): (r: State)
    requires k < |s.providers|
    ensures r.runningTasks == s.runningTasks && r.closing == s.closing
    ensures r.pending == s.pending + [s.providers[k].id]
    ensures r.providers == s.providers[k := s.providers[k].(closed := true)]
    ensures r.current == Reindex(s, k).current
    ensures r.events == Reindex(s, k).events + [ProviderClosed(s.providers[k].id), UpdateWindowTitle]
    ensures Inv(s) ==> Inv(r)
  {
    var id := s.providers[k].id;
    var t := Reindex(s, k);
    t.(providers := t.providers[k := t.providers[k].(closed := true)],
       events := t.events + [ProviderClosed(id), UpdateWindowTitle],
       pending := t.pending + [id])
  }

  /**
   * A confirmed removal: the provider at position k is closed and stays in
   * place, every other provider is untouched, the deferred phase is queued,
   * and the events are the optional ProviderClosing, at most two
   * ProviderChanged from the fix-up, then exactly one ProviderClosed and the
   * window-title refresh.
   */
  lemma RemoveConfirmed(s: State, id: ProviderId, noQuestions: bool, veto: bool)
    requires s.runningTasks == 0 && id in Ids(s.providers) && (noQuestions || !veto)
    ensures var r := Remove(s, Some(id), noQuestions, veto);
      var k := IndexOf(s.providers, id);
      var ask := if noQuestions then [] else [ProviderClosing(id)];
      && |r.providers| == |s.providers|
      && r.providers[k] == s.providers[k].(closed := true)
      && (forall j :: 0 <= j < |s.providers| && j != k ==> r.providers[j] == s.providers[j])
      && r.closing == s.closing + (if noQuestions then [] else [id])
      && r.pending == s.pending + [id]
      && |r.events| >= |s.events| + |ask| + 2
      && r.events[..|s.events| + |ask|] == s.events + ask
      && r.events[|r.events| - 2..] == [ProviderClosed(id), UpdateWindowTitle]
      && (forall i :: |s.events| + |ask| <= i < |r.events| - 2 ==> r.events[i].ProviderChanged?)
  {
    var asked := Ask(s, id, noQuestions);
    var k := IndexOf(asked.providers, id);
    var t := Reindex(asked, k);
    assert OnlyChanges(asked.events, t.events);
    var r := Remove(s, Some(id), noQuestions, veto);
    assert r.events == t.events + [ProviderClosed(id), UpdateWindowTitle];
    assert r.events[..|asked.events|] == t.events[..|asked.events|];
  }

  /** A vetoed removal posts no ProviderClosed, queues nothing and keeps the provider. */
  lemma VetoKeepsProvider(s: State, id: ProviderId)
    requires s.runningTasks == 0
    ensures var r := Remove(s, Some(id), false, true);
      && r.providers == s.providers && r.current == s.current
      && r.closing == s.closing + [id]
      && r.events == s.events + [ProviderClosing(id)]
      && r.pending == s.pending
  {
  }

  /**
   * The deferred phase of a removal, run by the task manager once no task
   * is running: ProviderDeleted, the provider leaves the closing list and the
   * registry, an index left out of range is reset to 0, and an emptied
   * registry announces ProviderChanged(provider, null).
   */
  function FinishRemoval(s: State): (r: State)
    requires s.runningTasks == 0 && |s.pending| > 0
    ensures r.pending == s.pending[1..] && r.runningTasks == s.runningTasks
    ensures r.closing == Without(s.closing, s.pending[0])
    ensures r.providers == Erase(s.providers, s.pending[0])
    ensures var ps := r.providers;
      && r.current == (if 0 < |ps| <= s.current then 0 else s.current)
      && r.events == s.events + [ProviderDeleted(s.pending[0])]
           + (if 0 < |ps| <= s.current then [ProviderChanged(None, Some(ps[0].id))] else [])
           + (if ps == [] then [ProviderChanged(Some(s.pending[0]), None)] else [])
    ensures Inv(s) ==> Inv(r)
  {
    var id := s.pending[0];
    var erased := Dequeued(s);
    assert Inv(s) ==> UniqueIds(erased.providers) && erased.current <= |erased.providers| by {
      if Inv(s) {
        EraseUnique(s.providers, id);
      }
    }
    Settled(erased, id)
  }

  /** The first steps of the deferred half: dequeue, announce, erase. */
  function Dequeued(s: State): (r: State)
    requires |s.pending| > 0
    ensures r.pending == s.pending[1..] && r.runningTasks == s.runningTasks && r.current == s.current
    ensures r.closing == Without(s.closing, s.pending[0])
    ensures r.providers == Erase(s.providers, s.pending[0])
    ensures r.events == s.events + [ProviderDeleted(s.pending[0])]
  {
    var id := s.pending[0];
    s.(pending := s.pending[1..], events := s.events + [ProviderDeleted(id)],
       closing := Without(s.closing, id), providers := Erase(s.providers, id))
  }

  /**
   * The last steps of the deferred half once `id` is erased: an index past
   * the end falls back to 0, and an empty registry announces `id -> none`.
   */
  function Settled(t: State, id: ProviderId): (r: State)
    requires t.runningTasks == 0
    ensures r.providers == t.providers && r.closing == t.closing && r.pending == t.pending
    ensures r.runningTasks == t.runningTasks
    ensures r.current == if 0 < |t.providers| <= t.current then 0 else t.current
    ensures r.events == t.events
      + (if 0 < |t.providers| <= t.current then [ProviderChanged(None, Some(t.providers[0].id))] else [])
      + (if t.providers == [] then [ProviderChanged(Some(id), None)] else [])
    ensures (&& UniqueIds(t.providers) && -1 <= t.current <= |t.providers|
             && (|t.providers| > 0 ==> 0 <= t.current)) ==> Inv(r)
  {
    var clamped := if t.current >= |t.providers| then SetCurrent(t, 0) else t;
    if |clamped.providers| == 0 then
      clamped.(events := clamped.events + [ProviderChanged(Some(id), None)])
    else clamped
  }

  /**
   * A confirmed removal followed by its deferred phase, with no other
   * removal in flight: the provider is gone from the registry and from the
   * closing list, every other provider stays, and the invariant holds.
   * Removing the last provider leaves an empty registry and ends with
   * ProviderChanged(provider, null).
   */
  lemma RemovalCompletes(s: State, id: ProviderId, noQuestions: bool)
    requires Inv(s) && s.runningTasks == 0 && s.pending == [] && id in Ids(s.providers)
    ensures var r := Remove(s, Some(id), noQuestions, false);
      |r.pending| == 1 &&
      var f := FinishRemoval(r);
      && Inv(f)
      && f.pending == []
      && id !in f.closing
      && id !in Ids(f.providers)
      && (forall x :: x in Ids(f.providers) <==> x in Ids(s.providers) && x != id)
      && (|s.providers| == 1 ==> f.providers == [] && Get(f) == None &&
                                 f.events[|f.events| - 1] == ProviderChanged(Some(id), None))
  {
    var k := IndexOf(s.providers, id);
    var r := Remove(s, Some(id), noQuestions, false);
    RemoveShape(s, id, noQuestions);
    FinishRemovalErases(r, k);
  }

  /**
   * Where the selection ends up once a removal and its deferred phase have
   * run, when providers remain: the old second provider (position 0
   * removed), the provider just before the removed one (the current one
   * removed), or the same provider as before (any other removed).
   */
  lemma RemovalSelection(s: State, id: ProviderId, noQuestions: bool)
    requires Inv(s) && s.runningTasks == 0 && s.pending == [] && id in Ids(s.providers)
    requires 1 < |s.providers| < U32_LIMIT
    ensures var r := Remove(s, Some(id), noQuestions, false);
      var k := IndexOf(s.providers, id);
      |r.pending| == 1 &&
      Get(FinishRemoval(r)) == Some(if k == 0 then s.providers[1].id
                                    else if k == s.current then s.providers[k - 1].id
                                    else s.providers[s.current].id)
  {
    var k := IndexOf(s.providers, id);
    var r := Remove(s, Some(id), noQuestions, false);
    RemoveShape(s, id, noQuestions);
    var asked := Ask(s, id, noQuestions);
    ReindexCurrent(asked, k);
    FinishRemovalKeepsIndex(r, k);
    var e := Erase(r.providers, id);
    IndexOfUnique(r.providers, k);
    if k != 0 && k != s.current && k < s.current {
      assert e[s.current - 1] == r.providers[s.current];
    }
  }

  /** The synchronous phase of a confirmed removal, as the deferred phase sees it. */
  lemma RemoveShape(s: State, id: ProviderId, noQuestions: bool)
    requires Inv(s) && s.runningTasks == 0 && s.pending == [] && id in Ids(s.providers)
    ensures var r := Remove(s, Some(id), noQuestions, false);
      var k := IndexOf(s.providers, id);
      && r.providers == s.providers[k := s.providers[k].(closed := true)]
      && Ids(r.providers) == Ids(s.providers)
      && r.providers[k].id == id
      && r.pending == [id] && r.runningTasks == 0
      && r.current == Reindex(Ask(s, id, noQuestions), k).current
      && Inv(r)
  {
    var k := IndexOf(s.providers, id);
    var asked := Ask(s, id, noQuestions);
    assert IndexOf(asked.providers, id) == k;
    var r := Remove(s, Some(id), noQuestions, false);
    assert r == Close(asked, k);
    assert Ids(r.providers) == Ids(s.providers) by {
      assert forall j :: 0 <= j < |r.providers| ==> r.providers[j].id == s.providers[j].id;
    }
  }

  /**
   * The deferred phase of removing the provider at position k: it leaves
   * the registry and the closing list, the invariant holds, and removing
   * the last provider ends with ProviderChanged(provider, null).
   */
  lemma FinishRemovalErases(r: State, k: nat)
    requires Inv(r) && r.runningTasks == 0 && |r.pending| == 1
    requires k < |r.providers| && r.providers[k].id == r.pending[0]
    ensures var f := FinishRemoval(r);
      var id := r.pending[0];
      && Inv(f)
      && f.pending == []
      && id !in f.closing
      && id !in Ids(f.providers)
      && (forall x :: x in Ids(f.providers) <==> x in Ids(r.providers) && x != id)
      && |f.providers| == |r.providers| - 1
      && (|r.providers| == 1 ==> f.providers == [] && Get(f) == None &&
                                 f.events[|f.events| - 1] == ProviderChanged(Some(id), None))
  {
    EraseUnique(r.providers, r.pending[0]);
  }

  /**
   * With at least two providers the fix-up selects position 0 (first
   * removed), current-1 (current removed or an earlier one removed), or
   * keeps the index (a later one removed).
   */
  lemma ReindexCurrent(s: State, k: nat)
    requires Inv(s) && s.runningTasks == 0 && k < |s.providers| && 1 < |s.providers| < U32_LIMIT
    ensures Reindex(s, k).current ==
      if k == 0 then 0
      else if k == s.current then k - 1
      else if k < s.current then s.current - 1
      else s.current
  {
    if k != 0 && k != s.current {
      IndexOfUnique(s.providers, s.current);
    }
  }

  /**
   * When the current index lies below the new size, the deferred phase
   * keeps it, and the current provider is the one now at that position.
   */
  lemma FinishRemovalKeepsIndex(r: State, k: nat)
    requires Inv(r) && r.runningTasks == 0 && |r.pending| > 0
    requires k < |r.providers| && r.providers[k].id == r.pending[0]
    requires 0 <= r.current < |r.providers| - 1
    ensures FinishRemoval(r).current == r.current
    ensures Get(FinishRemoval(r)) == Some(Erase(r.providers, r.pending[0])[r.current].id)
  {
    IndexOfUnique(r.providers, k);
  }

  /**
   * The reindexing as written loses the selection when the removed provider
   * lies after a current provider other than the first: once the deferred
   * erase has run, the selected position holds a different provider.
   */
  lemma AsWrittenLosesSelection(s: State, k: nat)
    requires Inv(s) && s.runningTasks == 0 && 0 < s.current < k < |s.providers| < U32_LIMIT
    ensures var t := ReindexAsWritten(s, k);
      var e := Erase(t.providers, s.providers[k].id);
      && 0 <= t.current < |e|
      && e[t.current].id != s.providers[s.current].id
  {
    AsWrittenRequestsPrevious(s, k);
    IndexOfUnique(s.providers, k);
    var t := ReindexAsWritten(s, k);
    assert t.current == s.current - 1;
    var e := Erase(t.providers, s.providers[k].id);
    assert e[s.current - 1] == s.providers[s.current - 1];
  }

  /** The smallest instance: with providers 1, 2, 3 and 2 selected, closing 3 selects 1. */
  lemma AsWrittenCounterexample()
    ensures var s := State([Provider(1, false, false, false), Provider(2, false, false, false),
                            Provider(3, false, false, false)], 1, [], [], 0, []);
      var t := ReindexAsWritten(s, 2);
      && Get(s) == Some(2)
      && t.current == 0
      && Erase(t.providers, 3)[t.current].id == 1
      && Reindex(s, 2) == s
  {
    var s := State([Provider(1, false, false, false), Provider(2, false, false, false),
                    Provider(3, false, false, false)], 1, [], [], 0, []);
    IndexOfUnique(s.providers, 1);
    IndexOfUnique(s.providers, 2);
  }
}
