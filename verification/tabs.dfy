/**
 * The five tabs of the interface and their cyclic order.
 */
module Tabs {
  import opened Common

  datatype TabId = Console | Summary | Performance | Warnings | History

  const TAB_COUNT: nat := 5

  /** `TabId::from_index`: a tab for each index below five, none beyond. */
  function FromIndex(i: nat): (r: Option<TabId>)
    ensures r.Some? <==> i < TAB_COUNT
  {
    match i
    case 0 => Some(Console)
    case 1 => Some(Summary)
    case 2 => Some(Performance)
    case 3 => Some(Warnings)
    case 4 => Some(History)
    case _ => None
  }

  /** `TabId::index`: the declaration position, which `from_index` maps
      back to the same tab. */
  function Index(t: TabId): (i: nat)
    ensures i < TAB_COUNT && FromIndex(i) == Some(t)
  {
    match t
    case Console => 0
    case Summary => 1
    case Performance => 2
    case Warnings => 3
    case History => 4
  }

  /** Indexing the tab an index names gives the index back. */
  lemma IndexFromIndex(i: nat)
    requires i < TAB_COUNT
    ensures Index(FromIndex(i).value) == i
  {
  }

  /** `next`: the following tab, wrapping to the first. The lookup of the
      computed index always finds a tab. */
  function Next(t: TabId): (r: TabId)
    ensures Index(r) == (Index(t) + 1) % TAB_COUNT
  {
    var r := FromIndex((Index(t) + 1) % TAB_COUNT);
    IndexFromIndex((Index(t) + 1) % TAB_COUNT);
    r.value
  }

  /** `prev`: the preceding tab, wrapping from the first to the last. */
  function Prev(t: TabId): (r: TabId)
    ensures Index(r) == if Index(t) == 0 then TAB_COUNT - 1 else Index(t) - 1
  {
    var i := if Index(t) == 0 then 4 else Index(t) - 1;
    var r := FromIndex(i);
    IndexFromIndex(i);
    r.value
  }

  /** Tabs are told apart by their index. */
  lemma IndexInjective(a: TabId, b: TabId)
    ensures Index(a) == Index(b) ==> a == b
  {
  }

  /** `next` and `prev` undo each other. */
  lemma NextPrevInverse(t: TabId)
    ensures Prev(Next(t)) == t && Next(Prev(t)) == t
  {
    IndexInjective(Prev(Next(t)), t);
    IndexInjective(Next(Prev(t)), t);
  }

  /** The tabs in their cyclic order. */
  lemma NextTable()
    ensures Next(Console) == Summary && Next(Summary) == Performance && Next(Performance) == Warnings
    ensures Next(Warnings) == History && Next(History) == Console
  {
    IndexInjective(Next(Console), Summary);
    IndexInjective(Next(Summary), Performance);
    IndexInjective(Next(Performance), Warnings);
    IndexInjective(Next(Warnings), History);
    IndexInjective(Next(History), Console);
  }

  /** Five steps forward return to the start, and no fewer do. */
  lemma NextCycle(t: TabId)
    ensures Next(Next(Next(Next(Next(t))))) == t
    ensures Next(t) != t && Next(Next(t)) != t && Next(Next(Next(t))) != t && Next(Next(Next(Next(t)))) != t
  {
    NextTable();
    match t
    case Console =>
    case Summary =>
    case Performance =>
    case Warnings =>
    case History =>
  }
}
