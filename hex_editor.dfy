/**
 * ImHexApi::HexEditor: the highlight, highlighting-provider, tooltip and
 * tooltip-provider stores, and the selection query.
 *
 * Each store is a std::map keyed by u32 together with its own counter that
 * is incremented before use, so ids start at 1.  Insertion goes through
 * std::map::insert, which leaves an existing entry alone; the counter is a
 * u32 and wraps around after 2^32 - 1 additions.
 */
module HexEditor {

  import opened Wrappers
  import opened MachineInt
  import ProviderSpec

  /** An address range: start address and size. */
  datatype Region = Region(address: u64, size: u64)

  type Color = u32

  datatype Highlighting = Highlighting(region: Region, color: Color)

  datatype Tooltip = Tooltip(region: Region, value: string, color: Color)

  /** A registered highlighting callback; its code is not part of this model. */
  datatype HighlightingFunction = HighlightingFunction(handle: nat)

  /** A registered tooltip callback; its code is not part of this model. */
  datatype TooltipFunction = TooltipFunction(handle: nat)

  /** A region of one provider; the provider may be null. */
  datatype ProviderRegion = ProviderRegion(region: Region, provider: Option<ProviderSpec.ProviderId>)

  /** `id++` on a u32 counter. */
  function NextId(last: u32): (r: u32)
    ensures last < U32_LIMIT - 1 ==> r == last + 1
    ensures last == U32_LIMIT - 1 ==> r == 0
  {
    (last + 1) % U32_LIMIT
  }

  /** The ids that n further additions hand out once the counter is at `last`. */
  function IssuedIds(last: u32, n: nat): (ids: seq<u32>)
    ensures |ids| == n
    decreases n
  {
    if n == 0 then [] else [NextId(last)] + IssuedIds(NextId(last), n - 1)
  }

  /**
   * Before the counter wraps, the k-th further addition gets last + k + 1:
   * from a fresh counter the ids are 1, 2, 3, ... and strictly increase.
   */
  lemma {:induction false} IssuedIdsCount(last: u32, n: nat)
    requires last + n < U32_LIMIT
    ensures forall i :: 0 <= i < n ==> IssuedIds(last, n)[i] == last + 1 + i
    decreases n
  {
    if n > 0 {
      IssuedIdsCount(NextId(last), n - 1);
    }
  }

  lemma IssuedIdsIncrease(n: nat)
    requires n < U32_LIMIT
    ensures forall i, j :: 0 <= i < j < n ==> 0 < IssuedIds(0, n)[i] < IssuedIds(0, n)[j]
    ensures n > 0 ==> IssuedIds(0, n)[0] == 1
  {
    IssuedIdsCount(0, n);
  }

  /** std::map::insert: a new key gets the value, an existing key keeps its own. */
  function Insert<V>(m: map<u32, V>, id: u32, v: V): (r: map<u32, V>)
    ensures r.Keys == m.Keys + {id}
    ensures id in m ==> r == m
    ensures id !in m ==> r[id] == v
    ensures forall k :: k in m ==> r[k] == m[k]
  {
    if id in m then m else m[id := v]
  }

  /** One store: the map and its counter. */
  class IdStore<V> {
    var entries: map<u32, V>
    var lastId: u32

    constructor ()
      ensures entries == map[] && lastId == 0
    {
      entries := map[];
      lastId := 0;
    }

    /** add...: pre-increment the counter, insert, hand out the id. */
    method Add(value: V) returns (id: u32)
      modifies this
      ensures id == NextId(old(lastId)) && lastId == id
      ensures entries == Insert(old(entries), id, value)
    {
      lastId := NextId(lastId);
      id := lastId;
      entries := Insert(entries, id, value);
    }

    /** remove...: erase exactly that key. */
    method Remove(id: u32)
      modifies this
      ensures entries == old(entries) - {id} && lastId == old(lastId)
    {
      entries := entries - {id};
    }
  }

  class Editor {
    const backgroundHighlights: IdStore<Highlighting>
    const backgroundHighlightingProviders: IdStore<HighlightingFunction>
    const foregroundHighlights: IdStore<Highlighting>
    const foregroundHighlightingProviders: IdStore<HighlightingFunction>
    const tooltips: IdStore<Tooltip>
    const tooltipProviders: IdStore<TooltipFunction>
    /** How many times HighlightingChanged has been posted. */
    var highlightingChanged: nat
    var selection: Option<ProviderRegion>

    /**
     * The six stores are six objects.  Stores of different element types
     * cannot be the same object, so only the two same-typed pairs need
     * stating; every method's `unchanged` clauses rely on this.
     */
    ghost predicate Valid()
      reads this
    {
      && backgroundHighlights != foregroundHighlights
      && backgroundHighlightingProviders != foregroundHighlightingProviders
    }

    constructor ()
      ensures Valid() && fresh(backgroundHighlights) && fresh(foregroundHighlights)
      ensures fresh(backgroundHighlightingProviders) && fresh(foregroundHighlightingProviders)
      ensures fresh(tooltips) && fresh(tooltipProviders)
      ensures highlightingChanged == 0 && selection == None
      ensures backgroundHighlights.entries == map[] && backgroundHighlights.lastId == 0
      ensures backgroundHighlightingProviders.entries == map[] && backgroundHighlightingProviders.lastId == 0
      ensures foregroundHighlights.entries == map[] && foregroundHighlights.lastId == 0
      ensures foregroundHighlightingProviders.entries == map[] && foregroundHighlightingProviders.lastId == 0
      ensures tooltips.entries == map[] && tooltips.lastId == 0
      ensures tooltipProviders.entries == map[] && tooltipProviders.lastId == 0
    {
      backgroundHighlights := new IdStore();
      backgroundHighlightingProviders := new IdStore();
      foregroundHighlights := new IdStore();
      foregroundHighlightingProviders := new IdStore();
      tooltips := new IdStore();
      tooltipProviders := new IdStore();
      highlightingChanged := 0;
      selection := None;
    }

    method AddBackgroundHighlight(region: Region, color: Color) returns (id: u32)
      requires Valid()
      modifies backgroundHighlights, this
      ensures unchanged(backgroundHighlightingProviders, foregroundHighlights, foregroundHighlightingProviders)
      ensures unchanged(tooltips, tooltipProviders)
      ensures Valid()
      ensures id == NextId(old(backgroundHighlights.lastId)) && backgroundHighlights.lastId == id
      ensures backgroundHighlights.entries == Insert(old(backgroundHighlights.entries), id, Highlighting(region, color))
      ensures highlightingChanged == old(highlightingChanged) + 1 && selection == old(selection)
    {
      id := backgroundHighlights.Add(Highlighting(region, color));
      highlightingChanged := highlightingChanged + 1;
    }

    method RemoveBackgroundHighlight(id: u32)
      requires Valid()
      modifies backgroundHighlights, this
      ensures unchanged(backgroundHighlightingProviders, foregroundHighlights, foregroundHighlightingProviders)
      ensures unchanged(tooltips, tooltipProviders)
      ensures Valid()
      ensures backgroundHighlights.entries == old(backgroundHighlights.entries) - {id}
      ensures backgroundHighlights.lastId == old(backgroundHighlights.lastId)
      ensures highlightingChanged == old(highlightingChanged) + 1 && selection == old(selection)
    {
      backgroundHighlights.Remove(id);
      highlightingChanged := highlightingChanged + 1;
    }

    method AddBackgroundHighlightingProvider(callback: HighlightingFunction) returns (id: u32)
      requires Valid()
      modifies backgroundHighlightingProviders, this
      ensures unchanged(backgroundHighlights, foregroundHighlights, foregroundHighlightingProviders)
      ensures unchanged(tooltips, tooltipProviders)
      ensures Valid()
      ensures id == NextId(old(backgroundHighlightingProviders.lastId))
      ensures backgroundHighlightingProviders.lastId == id
      ensures backgroundHighlightingProviders.entries ==
              Insert(old(backgroundHighlightingProviders.entries), id, callback)
      ensures highlightingChanged == old(highlightingChanged) + 1 && selection == old(selection)
    {
      id := backgroundHighlightingProviders.Add(callback);
      highlightingChanged := highlightingChanged + 1;
    }

    method RemoveBackgroundHighlightingProvider(id: u32)
      requires Valid()
      modifies backgroundHighlightingProviders, this
      ensures unchanged(backgroundHighlights, foregroundHighlights, foregroundHighlightingProviders)
      ensures unchanged(tooltips, tooltipProviders)
      ensures Valid()
      ensures backgroundHighlightingProviders.entries == old(backgroundHighlightingProviders.entries) - {id}
      ensures backgroundHighlightingProviders.lastId == old(backgroundHighlightingProviders.lastId)
      ensures highlightingChanged == old(highlightingChanged) + 1 && selection == old(selection)
    {
      backgroundHighlightingProviders.Remove(id);
      highlightingChanged := highlightingChanged + 1;
    }

    method AddForegroundHighlight(region: Region, color: Color) returns (id: u32)
      requires Valid()
      modifies foregroundHighlights, this
      ensures unchanged(backgroundHighlights, backgroundHighlightingProviders, foregroundHighlightingProviders)
      ensures unchanged(tooltips, tooltipProviders)
      ensures Valid()
      ensures id == NextId(old(foregroundHighlights.lastId)) && foregroundHighlights.lastId == id
      ensures foregroundHighlights.entries == Insert(old(foregroundHighlights.entries), id, Highlighting(region, color))
      ensures highlightingChanged == old(highlightingChanged) + 1 && selection == old(selection)
    {
      id := foregroundHighlights.Add(Highlighting(region, color));
      highlightingChanged := highlightingChanged + 1;
    }

    method RemoveForegroundHighlight(id: u32)
      requires Valid()
      modifies foregroundHighlights, this
      ensures unchanged(backgroundHighlights, backgroundHighlightingProviders, foregroundHighlightingProviders)
      ensures unchanged(tooltips, tooltipProviders)
      ensures Valid()
      ensures foregroundHighlights.entries == old(foregroundHighlights.entries) - {id}
      ensures foregroundHighlights.lastId == old(foregroundHighlights.lastId)
      ensures highlightingChanged == old(highlightingChanged) + 1 && selection == old(selection)
    {
      foregroundHighlights.Remove(id);
      highlightingChanged := highlightingChanged + 1;
    }

    method AddForegroundHighlightingProvider(callback: HighlightingFunction) returns (id: u32)
      requires Valid()
      modifies foregroundHighlightingProviders, this
      ensures unchanged(backgroundHighlights, backgroundHighlightingProviders, foregroundHighlights)
      ensures unchanged(tooltips, tooltipProviders)
      ensures Valid()
      ensures id == NextId(old(foregroundHighlightingProviders.lastId))
      ensures foregroundHighlightingProviders.lastId == id
      ensures foregroundHighlightingProviders.entries ==
              Insert(old(foregroundHighlightingProviders.entries), id, callback)
      ensures highlightingChanged == old(highlightingChanged) + 1 && selection == old(selection)
    {
      id := foregroundHighlightingProviders.Add(callback);
      highlightingChanged := highlightingChanged + 1;
    }

    method RemoveForegroundHighlightingProvider(id: u32)
      requires Valid()
      modifies foregroundHighlightingProviders, this
      ensures unchanged(backgroundHighlights, backgroundHighlightingProviders, foregroundHighlights)
      ensures unchanged(tooltips, tooltipProviders)
      ensures Valid()
      ensures foregroundHighlightingProviders.entries == old(foregroundHighlightingProviders.entries) - {id}
      ensures foregroundHighlightingProviders.lastId == old(foregroundHighlightingProviders.lastId)
      ensures highlightingChanged == old(highlightingChanged) + 1 && selection == old(selection)
    {
      foregroundHighlightingProviders.Remove(id);
      highlightingChanged := highlightingChanged + 1;
    }

    /** Tooltips post no event. */
    method AddTooltip(region: Region, value: string, color: Color) returns (id: u32)
      modifies tooltips
      ensures unchanged(backgroundHighlights, backgroundHighlightingProviders, foregroundHighlights)
      ensures unchanged(foregroundHighlightingProviders, tooltipProviders)
      ensures id == NextId(old(tooltips.lastId)) && tooltips.lastId == id
      ensures tooltips.entries == Insert(old(tooltips.entries), id, Tooltip(region, value, color))
    {
      id := tooltips.Add(Tooltip(region, value, color));
    }

    method RemoveTooltip(id: u32)
      modifies tooltips
      ensures unchanged(backgroundHighlights, backgroundHighlightingProviders, foregroundHighlights)
      ensures unchanged(foregroundHighlightingProviders, tooltipProviders)
      ensures tooltips.entries == old(tooltips.entries) - {id} && tooltips.lastId == old(tooltips.lastId)
    {
      tooltips.Remove(id);
    }

    method AddTooltipProvider(callback: TooltipFunction) returns (id: u32)
      modifies tooltipProviders
      ensures unchanged(backgroundHighlights, backgroundHighlightingProviders, foregroundHighlights)
      ensures unchanged(foregroundHighlightingProviders, tooltips)
      ensures id == NextId(old(tooltipProviders.lastId)) && tooltipProviders.lastId == id
      ensures tooltipProviders.entries == Insert(old(tooltipProviders.entries), id, callback)
    {
      id := tooltipProviders.Add(callback);
    }

    method RemoveTooltipProvider(id: u32)
      modifies tooltipProviders
      ensures unchanged(backgroundHighlights, backgroundHighlightingProviders, foregroundHighlights)
      ensures unchanged(foregroundHighlightingProviders, tooltips)
      ensures tooltipProviders.entries == old(tooltipProviders.entries) - {id}
      ensures tooltipProviders.lastId == old(tooltipProviders.lastId)
    {
      tooltipProviders.Remove(id);
    }

    /** isSelectionValid() over the stored selection. */
    method IsSelectionValid() returns (valid: bool)
      ensures valid == SelectionValid(selection)
    {
      valid := SelectionValid(selection);
    }
  }

  /** A selection is valid when there is one and its provider is not null. */
  function SelectionValid(selection: Option<ProviderRegion>): (valid: bool)
    ensures valid <==> exists r, p :: selection == Some(ProviderRegion(r, Some(p)))
  {
    selection.Some? && selection.value.provider.Some?
  }

  /** Removing an id erases that entry and keeps every other one. */
  lemma RemoveKeepsOthers<V>(m: map<u32, V>, id: u32)
    ensures id !in m - {id}
    ensures forall k :: k in m && k != id ==> k in m - {id} && (m - {id})[k] == m[k]
  {
  }

  /**
   * After 2^32 - 1 additions the counter wraps to 0; from then on an id that
   * is still in use is handed out again and the new value is dropped.
   */
  lemma WrappedIdKeepsOlderEntry<V>(m: map<u32, V>, v: V)
    requires 0 in m
    ensures NextId(U32_LIMIT - 1) == 0
    ensures Insert(m, NextId(U32_LIMIT - 1), v) == m
  {
  }
}
