/**
 * Concrete runs of the provider registry, step by step: each step lemma
 * pins down the state one operation produces, and each scenario chains the
 * steps into a whole session.
 */
module ProviderScenarios {

  import opened Wrappers
  import opened ProviderSpec

  const A: Provider := Provider(1, false, false, false)
  const B: Provider := Provider(2, false, false, false)
  const C: Provider := Provider(3, false, false, false)

  // ------------------------------------------ open A, open B, select B, close A

  /** Opening the first provider selects it even though `select` is false. */
  lemma OpenFirst()
    ensures Add(Initial, A, false, false) == State([A], 0, [], [ProviderCreated(1), ProviderChanged(None, Some(1))], 0, [])
  {
    var t := Initial.(providers := [A], events := [ProviderCreated(1)]);
    assert Add(Initial, A, false, false) == SetCurrent(t, 0);
    assert Get(t) == None;
  }

  /** Opening a second provider without `select` leaves the selection alone. */
  lemma OpenSecondUnselected()
    ensures Add(State([A], 0, [], [ProviderCreated(1), ProviderChanged(None, Some(1))], 0, []), B, false, false)
         == State([A, B], 0, [], [ProviderCreated(1), ProviderChanged(None, Some(1)), ProviderCreated(2)], 0, [])
  {
  }

  lemma SelectSecond()
    ensures SetCurrent(State([A, B], 0, [], [ProviderCreated(1), ProviderChanged(None, Some(1)), ProviderCreated(2)], 0, []), 1)
         == State([A, B], 1, [], [ProviderCreated(1), ProviderChanged(None, Some(1)), ProviderCreated(2),
                                  ProviderChanged(Some(1), Some(2))], 0, [])
  {
    var s := State([A, B], 0, [], [ProviderCreated(1), ProviderChanged(None, Some(1)), ProviderCreated(2)], 0, []);
    assert Get(s) == Some(1) && Get(s.(current := 1)) == Some(2);
  }

  /**
   * The fix-up for closing position 0 while the second provider is current:
   * index 0 is re-selected (A), then A -> B is announced.
   */
  lemma ReselectFirstOfTwo(closing: seq<ProviderId>, events: seq<Event>)
    ensures Reindex(State([A, B], 1, closing, events, 0, []), 0)
         == State([A, B], 0, closing, events + [ProviderChanged(Some(2), Some(1)), ProviderChanged(Some(1), Some(2))], 0, [])
  {
    var s := State([A, B], 1, closing, events, 0, []);
    assert Get(s) == Some(2) && Get(s.(current := 0)) == Some(1);
    assert SetCurrent(s, 0) == s.(current := 0, events := events + [ProviderChanged(Some(2), Some(1))]);
  }

  /** Closing A, after asking, while B is current: A is closed and its deferred phase queued. */
  lemma CloseFirstWhileSecondCurrent(events: seq<Event>)
    ensures Remove(State([A, B], 1, [], events, 0, []), Some(1), false, false)
         == State([A.(closed := true), B], 0, [1],
                  events + [ProviderClosing(1), ProviderChanged(Some(2), Some(1)), ProviderChanged(Some(1), Some(2)),
                            ProviderClosed(1), UpdateWindowTitle], 0, [1])
  {
    var s := State([A, B], 1, [], events, 0, []);
    var asked := State([A, B], 1, [1], events + [ProviderClosing(1)], 0, []);
    assert Ask(s, 1, false) == asked;
    assert Ids(asked.providers) == [1, 2];
    assert IndexOf(asked.providers, 1) == 0;
    ReselectFirstOfTwo([1], events + [ProviderClosing(1)]);
  }

  /** The deferred phase of closing A: B alone, still at index 0. */
  lemma FinishClosingFirstOfTwo(events: seq<Event>)
    ensures FinishRemoval(State([A.(closed := true), B], 0, [1], events, 0, [1]))
         == State([B], 0, [], events + [ProviderDeleted(1)], 0, [])
  {
    var s := State([A.(closed := true), B], 0, [1], events, 0, [1]);
    assert Ids(s.providers) == [1, 2];
    assert IndexOf(s.providers, 1) == 0;
    assert Erase(s.providers, 1) == [B];
    assert Without([1], 1) == [];
  }

  /** The event log after A and B are opened and B is selected. */
  const SelectedB: seq<Event> :=
    [ProviderCreated(1), ProviderChanged(None, Some(1)), ProviderCreated(2), ProviderChanged(Some(1), Some(2))]

  /** ... and after A is closed, before the deferred phase. */
  const ClosedA: seq<Event> :=
    SelectedB + [ProviderClosing(1), ProviderChanged(Some(2), Some(1)), ProviderChanged(Some(1), Some(2)),
                 ProviderClosed(1), UpdateWindowTitle]

  /**
   * Open A, open B without selecting it, select B, close A, run the deferred
   * phase.  Closing the first provider while B is current first re-selects
   * index 0 (still A) and then announces A -> B, so two ProviderChanged
   * events are posted; at the end only B remains, at index 0, and the
   * closing list is empty again.
   */
  lemma ScenarioSelectSecondCloseFirst()
    ensures Add(Initial, A, false, false) == State([A], 0, [], SelectedB[..2], 0, [])
    ensures Add(State([A], 0, [], SelectedB[..2], 0, []), B, false, false) == State([A, B], 0, [], SelectedB[..3], 0, [])
    ensures SetCurrent(State([A, B], 0, [], SelectedB[..3], 0, []), 1) == State([A, B], 1, [], SelectedB, 0, [])
    ensures Remove(State([A, B], 1, [], SelectedB, 0, []), Some(1), false, false)
         == State([A.(closed := true), B], 0, [1], ClosedA, 0, [1])
    ensures FinishRemoval(State([A.(closed := true), B], 0, [1], ClosedA, 0, [1]))
         == State([B], 0, [], ClosedA + [ProviderDeleted(1)], 0, [])
  {
    assert SelectedB[..2] == [ProviderCreated(1), ProviderChanged(None, Some(1))];
    assert SelectedB[..3] == [ProviderCreated(1), ProviderChanged(None, Some(1)), ProviderCreated(2)];
    OpenFirst();
    OpenSecondUnselected();
    SelectSecond();
    CloseFirstWhileSecondCurrent(SelectedB);
    FinishClosingFirstOfTwo(ClosedA);
  }

  // ------------------------------------------------ open A, B, C, close A

  /** Opening A, B and C, each with `select`, leaves C current. */
  lemma OpenThreeSelected()
    ensures var s := Add(Add(Add(Initial, A, false, true), B, false, true), C, false, true);
      s.providers == [A, B, C] && s.current == 2 && s.closing == [] && s.pending == [] && s.runningTasks == 0
  {
    var s1 := Add(Initial, A, false, true);
    assert s1.providers == [A] && s1.current == 0;
    var s2 := Add(s1, B, false, true);
    assert s2.providers == [A, B] && s2.current == 1;
  }

  /** Closing A without questions while C is current selects index 0. */
  lemma CloseFirstWhileThirdCurrent(events: seq<Event>)
    ensures var r := Remove(State([A, B, C], 2, [], events, 0, []), Some(1), true, false);
      r.providers == [A.(closed := true), B, C] && r.current == 0 && r.closing == [] && r.pending == [1]
  {
    var s := State([A, B, C], 2, [], events, 0, []);
    assert Ids(s.providers) == [1, 2, 3];
    assert IndexOf(s.providers, 1) == 0;
    assert Reindex(s, 0).current == 0;
  }

  /** The deferred phase of closing A out of three: B and C remain, index 0 kept. */
  lemma FinishClosingFirstOfThree(events: seq<Event>)
    ensures var f := FinishRemoval(State([A.(closed := true), B, C], 0, [], events, 0, [1]));
      f.providers == [B, C] && f.current == 0
  {
    var s := State([A.(closed := true), B, C], 0, [], events, 0, [1]);
    assert Ids(s.providers) == [1, 2, 3];
    assert IndexOf(s.providers, 1) == 0;
    assert Erase(s.providers, 1) == [B, C];
  }

  /**
   * Open A, B, C, each selected on opening, then close A: the first-position
   * rule selects index 0, so after the deferred phase B (not C) is current.
   */
  lemma ScenarioCloseFirstOfThree()
    ensures var s3 := Add(Add(Add(Initial, A, false, true), B, false, true), C, false, true);
      && s3.current == 2
      && var s4 := Remove(s3, Some(1), true, false);
      && s4.pending == [1]
      && var s5 := FinishRemoval(s4);
      && s5.providers == [B, C] && s5.current == 0 && Get(s5) == Some(2)
  {
    OpenThreeSelected();
    var s3 := Add(Add(Add(Initial, A, false, true), B, false, true), C, false, true);
    CloseFirstWhileThirdCurrent(s3.events);
    assert s3 == State([A, B, C], 2, [], s3.events, 0, []);
    var s4 := Remove(s3, Some(1), true, false);
    FinishClosingFirstOfThree(s4.events);
    assert s4 == State([A.(closed := true), B, C], 0, [], s4.events, 0, [1]);
  }
}
