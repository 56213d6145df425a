/** The 80-slot machine grid of one user: installing, moving and removing machines of one or two
    cells, with eviction to the inventory (server/controllers/inventoryController.js,
    server/controllers/machinesController.js), the availability check
    (server/models/machineModel.js) and the client's view of a slot (client/src/utils/machine.js). */
module SlotGrid {
  import opened Common

  const SLOTS := 80
  const SLOTS_PER_RACK := 8

  /** What a machine is, wherever it is kept. A minerId of 0 stands for null: it is an event machine
      without a catalogue entry. */
  datatype Spec = Spec(minerId: nat, level: nat, hashRate: real, slotSize: nat)

  datatype Machine = Machine(id: nat, slotIndex: int, spec: Spec)

  datatype Item = Item(id: nat, spec: Spec)

  datatype Response = Ok | BadRequest | NotFound | ServerError

  predicate Covers(m: Machine, cell: int) {
    m.slotIndex <= cell < m.slotIndex + m.spec.slotSize
  }

  /** The machine covers one of the `size` cells from `slot` on. */
  predicate Overlaps(m: Machine, slot: int, size: nat) {
    m.slotIndex < slot + size && slot < m.slotIndex + m.spec.slotSize
  }

  predicate SizeFits(spec: Spec) {
    1 <= spec.slotSize <= 2
  }

  /** Inside the grid, and a two-cell machine on an even slot. */
  predicate Placed(m: Machine) {
    && SizeFits(m.spec)
    && 0 <= m.slotIndex && m.slotIndex + m.spec.slotSize <= SLOTS
    && (m.spec.slotSize == 2 ==> m.slotIndex % 2 == 0)
  }

  /** The layout invariant. */
  ghost predicate Layout(ms: seq<Machine>) {
    (forall m :: m in ms ==> Placed(m)) && Apart(ms)
  }

  /** No two machines share an id or a cell. */
  ghost predicate Apart(ms: seq<Machine>) {
    forall i, j :: 0 <= i < j < |ms| ==> ms[i].id != ms[j].id && !Overlaps(ms[i], ms[j].slotIndex, ms[j].spec.slotSize)
  }

  // ---------- tables ----------

  /** The rows left after deleting the one with a given id. */
  function Delete(ms: seq<Machine>, id: nat): seq<Machine> {
    if ms == [] then []
    else if ms[0].id == id then Delete(ms[1..], id)
    else [ms[0]] + Delete(ms[1..], id)
  }

  function DeleteItem(items: seq<Item>, id: nat): seq<Item> {
    if items == [] then []
    else if items[0].id == id then DeleteItem(items[1..], id)
    else [items[0]] + DeleteItem(items[1..], id)
  }

  /** findMany with `slotIndex in [slot, slot + size)`, leaving out one id. */
  function FindInSlots(ms: seq<Machine>, slot: int, size: nat, except: Option<nat>): (r: seq<Machine>)
    ensures forall m :: m in r <==> m in ms && slot <= m.slotIndex < slot + size && except != Some(m.id)
  {
    if ms == [] then []
    else
      var rest := FindInSlots(ms[1..], slot, size, except);
      assert ms == [ms[0]] + ms[1..];
      if slot <= ms[0].slotIndex < slot + size && except != Some(ms[0].id) then [ms[0]] + rest else rest
  }

  /** findFirst at one slot, leaving out one id. */
  function FindAtSlot(ms: seq<Machine>, slot: int, except: Option<nat>): (r: Option<Machine>)
    ensures r.Some? ==> r.value in ms && r.value.slotIndex == slot && except != Some(r.value.id)
    ensures r.None? ==> forall m :: m in ms ==> m.slotIndex != slot || except == Some(m.id)
  {
    var found := FindInSlots(ms, slot, 1, except);
    if found == [] then None else Some(found[0])
  }

  function FindItem(items: seq<Item>, id: nat): (r: Option<Item>)
    ensures r.Some? ==> r.value in items && r.value.id == id
    ensures r.None? ==> forall i :: i in items ==> i.id != id
  {
    if items == [] then None
    else
      assert items == [items[0]] + items[1..];
      if items[0].id == id then Some(items[0]) else FindItem(items[1..], id)
  }

  function FindMachine(ms: seq<Machine>, id: nat): (r: Option<Machine>)
    ensures r.Some? ==> r.value in ms && r.value.id == id
    ensures r.None? ==> forall m :: m in ms ==> m.id != id
  {
    if ms == [] then None
    else
      assert ms == [ms[0]] + ms[1..];
      if ms[0].id == id then Some(ms[0]) else FindMachine(ms[1..], id)
  }

  ghost function MachineSpecs(ms: seq<Machine>): multiset<Spec> {
    if ms == [] then multiset{} else multiset{ms[0].spec} + MachineSpecs(ms[1..])
  }

  ghost function ItemSpecs(items: seq<Item>): multiset<Spec> {
    if items == [] then multiset{} else multiset{items[0].spec} + ItemSpecs(items[1..])
  }

  ghost predicate DistinctItems(items: seq<Item>) {
    forall i, j :: 0 <= i < j < |items| ==> items[i].id != items[j].id
  }

  lemma {:induction false} DeleteMember(ms: seq<Machine>, id: nat)
    ensures forall m :: m in Delete(ms, id) <==> m in ms && m.id != id
  {
    if ms == [] {
    } else {
      DeleteMember(ms[1..], id);
      assert ms == [ms[0]] + ms[1..];
    }
  }

  /** Deleting rows keeps the rest apart. */
  lemma {:induction false} DeleteKeepsApart(ms: seq<Machine>, id: nat)
    requires Apart(ms)
    ensures Apart(Delete(ms, id))
  {
    hide Overlaps;
    if ms == [] {
    } else {
      FirstIsApart(ms);
      DeleteKeepsApart(ms[1..], id);
      DeleteMember(ms[1..], id);
    }
  }

  /** The first machine stands apart from all others. */
  lemma FirstIsApart(ms: seq<Machine>)
    requires Apart(ms) && ms != []
    ensures Apart(ms[1..])
    ensures forall x :: x in ms[1..] ==> ms[0].id != x.id && !Overlaps(ms[0], x.slotIndex, x.spec.slotSize)
  {
    forall x | x in ms[1..]
      ensures ms[0].id != x.id && !Overlaps(ms[0], x.slotIndex, x.spec.slotSize)
    {
      var k :| 0 <= k < |ms[1..]| && ms[1..][k] == x;
      assert ms[k + 1] == x;
    }
  }

  lemma DeleteKeepsLayout(ms: seq<Machine>, id: nat)
    requires Layout(ms)
    ensures Layout(Delete(ms, id))
  {
    hide Apart, Placed;
    DeleteMember(ms, id);
    DeleteKeepsApart(ms, id);
  }

  lemma {:induction false} DeleteAbsent(ms: seq<Machine>, id: nat)
    requires forall m :: m in ms ==> m.id != id
    ensures Delete(ms, id) == ms
  {
    if ms == [] {
    } else {
      assert ms[0] in ms;
      DeleteAbsent(ms[1..], id);
    }
  }

  ghost predicate DistinctIds(ms: seq<Machine>) {
    forall i, j :: 0 <= i < j < |ms| ==> ms[i].id != ms[j].id
  }

  lemma {:induction false} DeleteSpecs(ms: seq<Machine>, m: Machine)
    requires DistinctIds(ms) && m in ms
    ensures MachineSpecs(ms) == MachineSpecs(Delete(ms, m.id)) + multiset{m.spec}
  {
    var rest := ms[1..];
    assert ms == [ms[0]] + rest;
    if ms[0].id == m.id {
      assert forall x :: x in rest ==> x.id != m.id by {
        forall x | x in rest ensures x.id != m.id {
          var k :| 0 <= k < |rest| && rest[k] == x;
          assert ms[k + 1] == x;
        }
      }
      assert m == ms[0];
      DeleteAbsent(rest, m.id);
    } else {
      DeleteSpecs(rest, m);
    }
  }

  lemma {:induction false} DeleteItemFacts(items: seq<Item>, item: Item)
    requires DistinctItems(items) && item in items
    ensures ItemSpecs(items) == ItemSpecs(DeleteItem(items, item.id)) + multiset{item.spec}
  {
    var rest := items[1..];
    assert items == [items[0]] + rest;
    if items[0].id == item.id {
      assert forall x :: x in rest ==> x.id != item.id by {
        forall x | x in rest ensures x.id != item.id {
          var k :| 0 <= k < |rest| && rest[k] == x;
          assert items[k + 1] == x;
        }
      }
      assert item == items[0];
      DeleteItemAbsent(rest, item.id);
    } else {
      DeleteItemFacts(rest, item);
    }
  }

  lemma {:induction false} DeleteItemAbsent(items: seq<Item>, id: nat)
    requires forall x :: x in items ==> x.id != id
    ensures DeleteItem(items, id) == items
  {
    if items == [] {
    } else {
      assert items[0] in items;
      DeleteItemAbsent(items[1..], id);
    }
  }

  lemma {:induction false} DeleteItemMember(items: seq<Item>, id: nat)
    ensures forall x :: x in DeleteItem(items, id) <==> x in items && x.id != id
    ensures DistinctItems(items) ==> DistinctItems(DeleteItem(items, id))
  {
    if items == [] {
    } else {
      var rest := items[1..];
      DeleteItemMember(rest, id);
      assert items == [items[0]] + rest;
      if DistinctItems(items) && items[0].id != id {
        var d := DeleteItem(rest, id);
        forall j | 0 <= j < |d| ensures items[0].id != d[j].id {
          assert d[j] in rest;
          var k :| 0 <= k < |rest| && rest[k] == d[j];
          assert items[k + 1] == d[j];
        }
      }
    }
  }

  lemma {:induction false} ItemSpecsAppend(items: seq<Item>, item: Item)
    ensures ItemSpecs(items + [item]) == ItemSpecs(items) + multiset{item.spec}
  {
    if items == [] {
      assert items + [item] == [item];
      assert [item][1..] == [];
    } else {
      assert (items + [item])[1..] == items[1..] + [item];
      ItemSpecsAppend(items[1..], item);
    }
  }

  lemma {:induction false} MachineSpecsAppend(ms: seq<Machine>, m: Machine)
    ensures MachineSpecs(ms + [m]) == MachineSpecs(ms) + multiset{m.spec}
  {
    if ms == [] {
      assert ms + [m] == [m];
      assert [m][1..] == [];
    } else {
      assert (ms + [m])[1..] == ms[1..] + [m];
      MachineSpecsAppend(ms[1..], m);
    }
  }

  /** A machine placed where nothing is left keeps the layout. */
  lemma AppendKeepsLayout(ms: seq<Machine>, m: Machine)
    requires Layout(ms) && Placed(m)
    requires forall x :: x in ms ==> x.id != m.id && !Overlaps(x, m.slotIndex, m.spec.slotSize)
    ensures Layout(ms + [m])
  {
  }

  // ---------- one eviction ----------

  datatype Grid = Grid(machines: seq<Machine>, inventory: seq<Item>, nextMachineId: nat, nextItemId: nat)

  /** The invariant of one user's tables. */
  ghost predicate GridOk(g: Grid) {
    && Layout(g.machines) && DistinctItems(g.inventory)
    && (forall m :: m in g.machines ==> m.id < g.nextMachineId)
    && (forall i :: i in g.inventory ==> i.id < g.nextItemId && SizeFits(i.spec))
  }

  /** Everything the user owns, in the grid or in the inventory. */
  ghost function Owned(g: Grid): multiset<Spec> {
    MachineSpecs(g.machines) + ItemSpecs(g.inventory)
  }

  /** A machine other than `except` stands on one of the target cells. */
  predicate InTheWay(m: Machine, slot: int, size: nat, except: Option<nat>) {
    Overlaps(m, slot, size) && except != Some(m.id)
  }

  /** Copy a machine to the inventory and delete its row. */
  function EvictOne(g: Grid, m: Machine): Grid {
    g.(machines := Delete(g.machines, m.id),
       inventory := g.inventory + [Item(g.nextItemId, m.spec)],
       nextItemId := g.nextItemId + 1)
  }

  function EvictEach(g: Grid, ms: seq<Machine>): Grid {
    if ms == [] then g else EvictOne(EvictEach(g, ms[..|ms| - 1]), ms[|ms| - 1])
  }

  lemma EvictOneKeeps(g: Grid, m: Machine)
    requires GridOk(g) && m in g.machines
    ensures GridOk(EvictOne(g, m)) && Owned(EvictOne(g, m)) == Owned(g)
    ensures forall x :: x in EvictOne(g, m).machines <==> x in g.machines && x.id != m.id
  {
    hide Layout, DistinctItems, MachineSpecs, ItemSpecs, Delete;
    var item := Item(g.nextItemId, m.spec);
    LayoutIds(g.machines);
    DeleteSpecs(g.machines, m);
    DeleteMember(g.machines, m.id);
    DeleteKeepsLayout(g.machines, m.id);
    ItemSpecsAppend(g.inventory, item);
    LayoutPlaces(g.machines, m);
    NewItemIsDistinct(g.inventory, item);
  }

  lemma NewItemIsDistinct(items: seq<Item>, item: Item)
    requires DistinctItems(items) && forall i :: i in items ==> i.id != item.id
    ensures DistinctItems(items + [item])
  {
  }

  lemma LayoutIds(ms: seq<Machine>)
    requires Layout(ms)
    ensures DistinctIds(ms)
  {
  }

  lemma LayoutPlaces(ms: seq<Machine>, m: Machine)
    requires Layout(ms) && m in ms
    ensures Placed(m)
  {
  }

  /** Evicting several machines, one after the other. */
  lemma {:induction false} EvictEachKeeps(g: Grid, ms: seq<Machine>)
    requires GridOk(g) && DistinctIds(ms) && forall m :: m in ms ==> m in g.machines
    ensures GridOk(EvictEach(g, ms)) && Owned(EvictEach(g, ms)) == Owned(g)
    ensures forall x :: x in EvictEach(g, ms).machines <==> x in g.machines && forall m :: m in ms ==> m.id != x.id
  {
    hide GridOk, Owned, EvictOne;
    if ms == [] {
    } else {
      var rest, m := ms[..|ms| - 1], ms[|ms| - 1];
      assert ms == rest + [m];
      EvictEachKeeps(g, rest);
      forall y | y in rest ensures y.id != m.id {
        var k :| 0 <= k < |rest| && rest[k] == y;
        assert ms[k] == y;
      }
      EvictOneKeeps(EvictEach(g, rest), m);
    }
  }

  lemma {:induction false} FoundAreDistinct(ms: seq<Machine>, slot: int, size: nat, except: Option<nat>)
    requires DistinctIds(ms)
    ensures DistinctIds(FindInSlots(ms, slot, size, except))
  {
    if ms == [] {
    } else {
      FoundAreDistinct(ms[1..], slot, size, except);
      var rest := FindInSlots(ms[1..], slot, size, except);
      forall j | 0 <= j < |rest| ensures rest[j].id != ms[0].id {
        assert rest[j] in rest;
        var k :| 0 <= k < |ms[1..]| && ms[1..][k] == rest[j];
        assert ms[k + 1] == rest[j];
      }
    }
  }

  /** The machines the source evicts for a target: those that start on its cells and, on an odd slot, a
      two-cell machine that starts one before it. */
  function Obstacles(ms: seq<Machine>, slot: int, size: nat, except: Option<nat>): seq<Machine> {
    FindInSlots(ms, slot, size, except) +
    (if slot % 2 == 1 then
       var prev := FindAtSlot(ms, slot - 1, except);
       if prev.Some? && prev.value.spec.slotSize == 2 then [prev.value] else []
     else [])
  }

  /** In a good layout they are exactly the machines in the way, each once. */
  lemma ObstaclesAreInTheWay(ms: seq<Machine>, slot: int, size: nat, except: Option<nat>)
    requires Layout(ms) && 1 <= size <= 2 && (size == 2 ==> slot % 2 == 0)
    ensures forall m :: m in Obstacles(ms, slot, size, except) <==> m in ms && InTheWay(m, slot, size, except)
    ensures DistinctIds(Obstacles(ms, slot, size, except))
  {
    FoundAreDistinct(ms, slot, size, except);
    forall m | m in ms && InTheWay(m, slot, size, except)
      ensures m in Obstacles(ms, slot, size, except)
    {
      LayoutPlaces(ms, m);
      if m.slotIndex < slot {
        var prev := FindAtSlot(ms, slot - 1, except);
        assert prev.Some?;
        SameSlotSame(ms, m, prev.value);
      }
    }
  }

  /** No two machines of a layout share a cell. */
  lemma SameSlotSame(ms: seq<Machine>, a: Machine, b: Machine)
    requires Layout(ms) && a in ms && b in ms && Overlaps(a, b.slotIndex, b.spec.slotSize)
    ensures a == b
  {
    var i :| 0 <= i < |ms| && ms[i] == a;
    var j :| 0 <= j < |ms| && ms[j] == b;
  }

  // ---------- installing, moving ----------

  /** Installing an item: clear its cells, add a machine, delete the item. */
  function Installed(g: Grid, slot: int, item: Item): Grid {
    var r := EvictEach(g, Obstacles(g.machines, slot, item.spec.slotSize, None));
    r.(machines := r.machines + [Machine(r.nextMachineId, slot, item.spec)],
       nextMachineId := r.nextMachineId + 1,
       inventory := DeleteItem(r.inventory, item.id))
  }

  /** The rows with one machine put on another slot. */
  function Relocate(ms: seq<Machine>, id: nat, slot: int): seq<Machine> {
    if ms == [] then []
    else [if ms[0].id == id then ms[0].(slotIndex := slot) else ms[0]] + Relocate(ms[1..], id, slot)
  }

  function Moved(g: Grid, m: Machine, slot: int): Grid {
    var r := EvictEach(g, Obstacles(g.machines, slot, m.spec.slotSize, Some(m.id)));
    r.(machines := Relocate(r.machines, m.id, slot))
  }

  predicate TargetFits(slot: int, spec: Spec) {
    0 <= slot < SLOTS && (spec.slotSize == 2 ==> slot % 2 == 0)
  }

  lemma {:induction false} EvictEachAdds(g: Grid, ms: seq<Machine>)
    ensures g.inventory <= EvictEach(g, ms).inventory && EvictEach(g, ms).nextMachineId == g.nextMachineId
  {
    if ms == [] {
    } else {
      EvictEachAdds(g, ms[..|ms| - 1]);
    }
  }

  /** Clearing the cells of a target leaves exactly the machines that are not in the way. */
  lemma ClearedFor(g: Grid, slot: int, spec: Spec, except: Option<nat>)
    requires GridOk(g) && SizeFits(spec) && TargetFits(slot, spec)
    ensures var r := EvictEach(g, Obstacles(g.machines, slot, spec.slotSize, except));
            && GridOk(r) && Owned(r) == Owned(g) && g.inventory <= r.inventory && r.nextMachineId == g.nextMachineId
            && forall x :: x in r.machines <==> x in g.machines && !InTheWay(x, slot, spec.slotSize, except)
  {
    hide Owned;
    var all := Obstacles(g.machines, slot, spec.slotSize, except);
    ObstaclesAreInTheWay(g.machines, slot, spec.slotSize, except);
    EvictEachKeeps(g, all);
    EvictEachAdds(g, all);
    forall x | x in g.machines
      ensures (forall m :: m in all ==> m.id != x.id) <==> !InTheWay(x, slot, spec.slotSize, except)
    {
      if m :| m in all && m.id == x.id {
        SameIdSame(g.machines, m, x);
      }
    }
  }

  lemma SameIdSame(ms: seq<Machine>, a: Machine, b: Machine)
    requires Layout(ms) && a in ms && b in ms && a.id == b.id
    ensures a == b
  {
    var i :| 0 <= i < |ms| && ms[i] == a;
    var j :| 0 <= j < |ms| && ms[j] == b;
  }

  /** Installing keeps the invariant and all that is owned; the grid then holds the new machine and
      exactly the old ones that were not in the way. */
  lemma InstalledKeeps(g: Grid, slot: int, item: Item)
    requires GridOk(g) && item in g.inventory && TargetFits(slot, item.spec)
    ensures var r := Installed(g, slot, item);
            && GridOk(r) && Owned(r) == Owned(g)
            && (forall x :: x in r.machines <==> x == Machine(g.nextMachineId, slot, item.spec) ||
                                                 (x in g.machines && !Overlaps(x, slot, item.spec.slotSize)))
            && (forall i :: i in g.inventory ==> (i in r.inventory <==> i.id != item.id))
  {
    hide Layout, DistinctItems, MachineSpecs, ItemSpecs, EvictEach, Obstacles;
    var r := EvictEach(g, Obstacles(g.machines, slot, item.spec.slotSize, None));
    ClearedFor(g, slot, item.spec, None);
    var m := Machine(r.nextMachineId, slot, item.spec);
    AppendKeepsLayout(r.machines, m);
    MachineSpecsAppend(r.machines, m);
    DeleteItemFacts(r.inventory, item);
    DeleteItemMember(r.inventory, item.id);
  }

  lemma {:induction false} RelocateFacts(ms: seq<Machine>, m: Machine, slot: int)
    requires Layout(ms) && m in ms && Placed(m.(slotIndex := slot))
    requires forall x :: x in ms ==> !InTheWay(x, slot, m.spec.slotSize, Some(m.id))
    ensures Layout(Relocate(ms, m.id, slot))
    ensures forall x :: x in Relocate(ms, m.id, slot) <==> x == m.(slotIndex := slot) || (x in ms && x.id != m.id)
  {
    RelocateRows(ms, m.id, slot);
    var r := Relocate(ms, m.id, slot);
    forall i | 0 <= i < |ms| ensures ms[i].id == m.id ==> ms[i] == m {
      if ms[i].id == m.id {
        SameIdSame(ms, ms[i], m);
      }
    }
    RelocateMembers(ms, m, r, slot);
    RelocateApart(ms, m, r, slot);
  }

  lemma RelocateApart(ms: seq<Machine>, m: Machine, r: seq<Machine>, slot: int)
    requires Apart(ms) && |r| == |ms|
    requires forall i :: 0 <= i < |ms| ==> ms[i].id == m.id ==> ms[i] == m
    requires forall i :: 0 <= i < |ms| ==> r[i] == if ms[i].id == m.id then ms[i].(slotIndex := slot) else ms[i]
    requires forall i :: 0 <= i < |ms| ==> !InTheWay(ms[i], slot, m.spec.slotSize, Some(m.id))
    ensures Apart(r)
  {
    forall i, j | 0 <= i < j < |r|
      ensures r[i].id != r[j].id && !Overlaps(r[i], r[j].slotIndex, r[j].spec.slotSize)
    {
      assert ms[i].id != ms[j].id;
    }
  }

  lemma RelocateMembers(ms: seq<Machine>, m: Machine, r: seq<Machine>, slot: int)
    requires m in ms && |r| == |ms|
    requires forall i :: 0 <= i < |ms| ==> ms[i].id == m.id ==> ms[i] == m
    requires forall i :: 0 <= i < |ms| ==> r[i] == if ms[i].id == m.id then ms[i].(slotIndex := slot) else ms[i]
    ensures forall x :: x in r <==> x == m.(slotIndex := slot) || (x in ms && x.id != m.id)
  {
    var k :| 0 <= k < |ms| && ms[k] == m;
    assert r[k] == m.(slotIndex := slot);
    forall x | x in ms && x.id != m.id ensures x in r {
      var i :| 0 <= i < |ms| && ms[i] == x;
      assert r[i] == x;
    }
    forall x | x in r ensures x == m.(slotIndex := slot) || (x in ms && x.id != m.id) {
      var i :| 0 <= i < |r| && r[i] == x;
      assert ms[i] in ms;
    }
  }

  lemma {:induction false} RelocateRows(ms: seq<Machine>, id: nat, slot: int)
    ensures |Relocate(ms, id, slot)| == |ms| && MachineSpecs(Relocate(ms, id, slot)) == MachineSpecs(ms)
    ensures forall i :: 0 <= i < |ms| ==>
              Relocate(ms, id, slot)[i] == if ms[i].id == id then ms[i].(slotIndex := slot) else ms[i]
  {
    if ms == [] {
    } else {
      RelocateRows(ms[1..], id, slot);
    }
  }

  /** Moving keeps the invariant and all that is owned; the machine stands on its target and exactly the
      others that were not in the way are still there. */
  lemma MovedKeeps(g: Grid, m: Machine, slot: int)
    requires GridOk(g) && m in g.machines && TargetFits(slot, m.spec)
    ensures var r := Moved(g, m, slot);
            && GridOk(r) && Owned(r) == Owned(g) && g.inventory <= r.inventory
            && (forall x :: x in r.machines <==> x == m.(slotIndex := slot) ||
                                                 (x in g.machines && x.id != m.id &&
                                                  !Overlaps(x, slot, m.spec.slotSize)))
  {
    hide DistinctItems, MachineSpecs, ItemSpecs, EvictEach, Obstacles, Layout;
    LayoutPlaces(g.machines, m);
    var r := EvictEach(g, Obstacles(g.machines, slot, m.spec.slotSize, Some(m.id)));
    ClearedFor(g, slot, m.spec, Some(m.id));
    RelocateFacts(r.machines, m, slot);
    RelocateRows(r.machines, m.id, slot);
  }

  // ---------- installations that overlap ----------

  /** The machine that the transaction itself finds before an odd slot. */
  function BeforeOdd(ms: seq<Machine>, slot: int): seq<Machine> {
    if slot % 2 == 1 then
      var prev := FindAtSlot(ms, slot - 1, None);
      if prev.Some? && prev.value.spec.slotSize == 2 then [prev.value] else []
    else []
  }

  /** The writes of an installation, with the machines to evict as they were found before the transaction. */
  function InstalledOver(g: Grid, found: seq<Machine>, slot: int, item: Item): Grid {
    var cleared := EvictEach(g, found);
    var r := EvictEach(cleared, BeforeOdd(cleared.machines, slot));
    r.(machines := r.machines + [Machine(r.nextMachineId, slot, item.spec)],
       nextMachineId := r.nextMachineId + 1,
       inventory := DeleteItem(r.inventory, item.id))
  }

  /** As long as what was found is still there, they keep the layout exactly when no other machine has come
      in the way since, one before an odd slot excepted; what is owned they always keep. */
  lemma InstallWriteIff(g: Grid, found: seq<Machine>, slot: int, item: Item)
    requires GridOk(g) && item in g.inventory && TargetFits(slot, item.spec)
    requires DistinctIds(found) && forall m :: m in found ==> m in g.machines
    ensures Owned(InstalledOver(g, found, slot, item)) == Owned(g)
    ensures GridOk(InstalledOver(g, found, slot, item)) <==>
              forall m :: m in g.machines && Overlaps(m, slot, item.spec.slotSize) ==>
                m in found || (slot % 2 == 1 && m.slotIndex == slot - 1)
  {
    hide Layout, DistinctItems, MachineSpecs, ItemSpecs, EvictEach, BeforeOdd, Overlaps;
    var cleared := EvictEach(g, found);
    EvictEachKeeps(g, found);
    EvictEachAdds(g, found);
    var before := BeforeOdd(cleared.machines, slot);
    BeforeOddIs(cleared.machines, slot, item.spec.slotSize);
    EvictEachKeeps(cleared, before);
    EvictEachAdds(cleared, before);
    var r := EvictEach(cleared, before);
    forall x | x in g.machines && Overlaps(x, slot, item.spec.slotSize)
      ensures x in r.machines <==> x !in found && !(slot % 2 == 1 && x.slotIndex == slot - 1)
    {
      IdsTell(g.machines, found, x);
      IdsTell(cleared.machines, before, x);
    }
    var m := Machine(r.nextMachineId, slot, item.spec);
    AppendKeepsLayoutIff(r.machines, m);
    MachineSpecsAppend(r.machines, m);
    DeleteItemFacts(r.inventory, item);
    DeleteItemMember(r.inventory, item.id);
  }

  lemma BeforeOddIs(ms: seq<Machine>, slot: int, size: nat)
    requires Layout(ms)
    ensures forall m :: m in BeforeOdd(ms, slot) ==> m in ms && m.slotIndex == slot - 1 && slot % 2 == 1
    ensures forall m :: m in ms && Overlaps(m, slot, size) && slot % 2 == 1 && m.slotIndex == slot - 1 ==>
              m in BeforeOdd(ms, slot)
    ensures DistinctIds(BeforeOdd(ms, slot))
  {
    forall m | m in ms && Overlaps(m, slot, size) && slot % 2 == 1 && m.slotIndex == slot - 1
      ensures m in BeforeOdd(ms, slot)
    {
      LayoutPlaces(ms, m);
      SameSlotSame(ms, m, FindAtSlot(ms, slot - 1, None).value);
    }
  }

  /** Among the rows of a layout, having none of some ids is being none of those rows. */
  lemma IdsTell(ms: seq<Machine>, some: seq<Machine>, x: Machine)
    requires Layout(ms) && forall m :: m in some ==> m in ms
    ensures x in ms ==> ((forall m :: m in some ==> m.id != x.id) <==> x !in some)
  {
    if x in ms && x !in some {
      forall m | m in some ensures m.id != x.id {
        if m.id == x.id {
          SameIdSame(ms, m, x);
        }
      }
    }
  }

  lemma AppendKeepsLayoutIff(ms: seq<Machine>, m: Machine)
    requires Layout(ms) && Placed(m) && forall x :: x in ms ==> x.id != m.id
    ensures Layout(ms + [m]) <==> forall x :: x in ms ==> !Overlaps(x, m.slotIndex, m.spec.slotSize)
  {
    var all := ms + [m];
    if Layout(all) {
      forall x | x in ms ensures !Overlaps(x, m.slotIndex, m.spec.slotSize) {
        var i :| 0 <= i < |ms| && ms[i] == x;
        assert all[i] == x && all[|ms|] == m;
      }
    }
    if forall x :: x in ms ==> !Overlaps(x, m.slotIndex, m.spec.slotSize) {
      AppendKeepsLayout(ms, m);
    }
  }

  /** Two installations on one free even slot that both looked before either wrote: both machines are placed there. */
  lemma OverlappingInstallsCollide(g: Grid, slot: int, first: Item, second: Item)
    requires GridOk(g) && first in g.inventory && second in g.inventory && first.id != second.id && slot % 2 == 0
    requires TargetFits(slot, first.spec) && TargetFits(slot, second.spec)
    requires forall m :: m in g.machines ==> !Overlaps(m, slot, 2)
    ensures !GridOk(InstalledOver(InstalledOver(g, [], slot, first), [], slot, second))
  {
    hide Layout, DistinctItems, MachineSpecs, ItemSpecs;
    var once := InstalledOver(g, [], slot, first);
    InstallWriteIff(g, [], slot, first);
    DeleteItemMember(g.inventory, first.id);
    assert once.machines[|g.machines|] == Machine(g.nextMachineId, slot, first.spec);
    InstallWriteIff(once, [], slot, second);
  }

  // ---------- the controllers ----------

  class UserGrid {
    var machines: seq<Machine>
    var inventory: seq<Item>
    var nextMachineId: nat
    var nextItemId: nat

    ghost function State(): Grid
      reads this
    {
      Grid(machines, inventory, nextMachineId, nextItemId)
    }

    constructor ()
      ensures GridOk(State()) && Owned(State()) == multiset{} && State() == Grid([], [], 1, 1)
    {
      machines, inventory, nextMachineId, nextItemId := [], [], 1, 1;
    }

    /** A bought, won or claimed machine arrives in the inventory. Every writer of a slot size keeps it to
        one or two. */
    method Receive(spec: Spec)
      requires GridOk(State()) && SizeFits(spec)
      modifies this`inventory, this`nextItemId
      ensures GridOk(State()) && Owned(State()) == old(Owned(State())) + multiset{spec}
      ensures State() == Received(old(State()), spec)
    {
      hide GridOk, Owned;
      ReceivedKeeps(State(), spec);
      inventory := inventory + [Item(nextItemId, spec)];
      nextItemId := nextItemId + 1;
    }

    /** The body of an eviction loop. */
    method Evict(m: Machine)
      modifies this`machines, this`inventory, this`nextItemId
      ensures State() == EvictOne(old(State()), m)
    {
      inventory := inventory + [Item(nextItemId, m.spec)];
      nextItemId := nextItemId + 1;
      machines := Delete(machines, m.id);
    }

    /** Evict machines one after the other. With `named`, each must have a catalogue entry to take its name
        from; `ok` is false when one has not, which fails the surrounding transaction. */
    method EvictAll(found: seq<Machine>, named: bool) returns (ok: bool)
      modifies this`machines, this`inventory, this`nextItemId
      ensures ok <==> !(named && Nameless(found))
      ensures ok ==> State() == EvictEach(old(State()), found)
    {
      hide EvictOne;
      for i := 0 to |found|
        invariant State() == EvictEach(old(State()), found[..i])
        invariant named ==> forall k :: 0 <= k < i ==> found[k].spec.minerId != 0
      {
        if named && found[i].spec.minerId == 0 {
          assert found[i] in found;
          return false;
        }
        assert found[..i + 1][..i] == found[..i];
        Evict(found[i]);
      }
      assert found[..|found|] == found;
      ok := true;
    }

    /** Make room for a machine: evict what starts on the target cells and, on an odd slot, a two-cell
        machine that reaches into it. */
    method MakeRoom(slot: int, size: nat, except: Option<nat>, named: bool) returns (ok: bool)
      requires GridOk(State()) && 1 <= size <= 2 && (size == 2 ==> slot % 2 == 0)
      modifies this`machines, this`inventory, this`nextItemId
      ensures ok <==>
                !(named && exists m :: m in old(machines) && InTheWay(m, slot, size, except) && m.spec.minerId == 0)
      ensures ok ==> State() == EvictEach(old(State()), Obstacles(old(machines), slot, size, except))
    {
      hide GridOk, EvictEach, FindInSlots, FindAtSlot, InTheWay;
      ghost var before := State();
      RoomFacts(before, slot, size, except);
      var existing := FindInSlots(machines, slot, size, except);
      EvictEachSplits(before, existing);
      ok := EvictAll(existing, named);
      if ok && slot % 2 == 1 {
        var prev := FindAtSlot(machines, slot - 1, except);
        if prev.Some? && prev.value.spec.slotSize == 2 {
          ok := EvictAll([prev.value], named);
        }
      }
    }

    /** installInventoryItem; a slot that is no integer arrives as None. */
    method Install(slotIndex: Option<int>, inventoryId: nat) returns (r: Response)
      requires GridOk(State())
      modifies this
      ensures GridOk(State()) && Owned(State()) == old(Owned(State()))
      ensures r == if slotIndex.None? || !(0 <= slotIndex.value < 80) then BadRequest
                   else if FindItem(old(inventory), inventoryId).None? then NotFound
                   else
                     var item := FindItem(old(inventory), inventoryId).value;
                     if item.spec.slotSize == 2 && slotIndex.value % 2 == 1 then BadRequest
                     else Ok
      ensures r == Ok ==>
                State() == Installed(old(State()), slotIndex.value, FindItem(old(inventory), inventoryId).value)
      ensures r != Ok ==> State() == old(State())
    {
      hide GridOk, Owned, Layout, Obstacles, EvictEach, InTheWay;
      if slotIndex.None? || slotIndex.value < 0 || slotIndex.value >= SLOTS {
        return BadRequest;
      }
      var found := FindItem(inventory, inventoryId);
      if found.None? {
        return NotFound;
      }
      var slot, item := slotIndex.value, found.value;
      ItemFits(State(), item);
      var slotSize := if item.spec.slotSize == 0 then 1 else item.spec.slotSize;
      if slotSize == 2 && slot % 2 != 0 {
        return BadRequest;
      }
      InstalledKeeps(State(), slot, item);
      var ok := MakeRoom(slot, slotSize, None, false);
      EvictEachAdds(old(State()), Obstacles(old(machines), slot, slotSize, None));
      machines := machines + [Machine(nextMachineId, slot, item.spec.(slotSize := slotSize))];
      nextMachineId := nextMachineId + 1;
      inventory := DeleteItem(inventory, inventoryId);
      r := Ok;
    }

    /** moveMachine. Evicting a machine without a catalogue entry fails the whole transaction. */
    method Move(machineId: nat, targetSlotIndex: Option<int>) returns (r: Response)
      requires GridOk(State())
      modifies this
      ensures GridOk(State()) && Owned(State()) == old(Owned(State()))
      ensures r == if targetSlotIndex.None? || !(0 <= targetSlotIndex.value < 80) then BadRequest
                   else if FindMachine(old(machines), machineId).None? then NotFound
                   else
                     var m := FindMachine(old(machines), machineId).value;
                     if m.spec.slotSize == 2 && targetSlotIndex.value % 2 == 1 then BadRequest
                     else if exists x :: x in old(machines) &&
                                         InTheWay(x, targetSlotIndex.value, m.spec.slotSize, Some(machineId))
                                         && x.spec.minerId == 0 then ServerError
                     else Ok
      ensures r == Ok ==>
                State() == Moved(old(State()), FindMachine(old(machines), machineId).value, targetSlotIndex.value)
      ensures r != Ok ==> machines == old(machines) && inventory == old(inventory)
    {
      hide GridOk, Owned, Layout, Obstacles, EvictEach, InTheWay;
      if targetSlotIndex.None? || targetSlotIndex.value < 0 || targetSlotIndex.value >= SLOTS {
        return BadRequest;
      }
      var found := FindMachine(machines, machineId);
      if found.None? {
        return NotFound;
      }
      var slot, m := targetSlotIndex.value, found.value;
      MachineFits(State(), m);
      if m.spec.slotSize == 2 && slot % 2 != 0 {
        return BadRequest;
      }
      MovedKeeps(State(), m, slot);
      var savedMachines, savedInventory, savedItemId := machines, inventory, nextItemId;
      var ok := MakeRoom(slot, m.spec.slotSize, Some(machineId), true);
      if !ok {
        machines, inventory, nextItemId := savedMachines, savedInventory, savedItemId;
        return ServerError;
      }
      machines := Relocate(machines, machineId, slot);
      r := Ok;
    }

    /** removeMachine */
    method Remove(machineId: nat) returns (r: Response)
      requires GridOk(State())
      modifies this
      ensures GridOk(State()) && Owned(State()) == old(Owned(State()))
      ensures r == if FindMachine(old(machines), machineId).None? then NotFound else Ok
      ensures r == Ok ==> State() == EvictOne(old(State()), FindMachine(old(machines), machineId).value)
      ensures r != Ok ==> State() == old(State())
    {
      hide GridOk, Owned, Layout;
      var found := FindMachine(machines, machineId);
      if found.None? {
        return NotFound;
      }
      RemoveKeeps(State(), found.value);
      Evict(found.value);
      r := Ok;
    }

    /** Any sequence of requests, whatever they are answered. */
    method Serve(requests: seq<Request>) returns (responses: seq<Response>)
      requires GridOk(State()) && SizesFit(requests)
      modifies this
      ensures GridOk(State()) && Owned(State()) == old(Owned(State())) + Arrivals(requests) && |responses| == |requests|
    {
      hide GridOk, Owned, SizeFits;
      responses := [];
      for i := 0 to |requests|
        invariant GridOk(State()) && Owned(State()) == old(Owned(State())) + Arrivals(requests[..i]) && |responses| == i
      {
        assert requests[..i + 1][..i] == requests[..i];
        var r;
        match requests[i] {
          case InstallRequest(slotIndex, inventoryId) => r := Install(slotIndex, inventoryId);
          case MoveRequest(machineId, target) => r := Move(machineId, target);
          case RemoveRequest(machineId) => r := Remove(machineId);
          case ReceiveRequest(spec) => Receive(spec); r := Ok;
        }
        responses := responses + [r];
      }
      assert requests[..|requests|] == requests;
    }
  }

  /** Every reachable grid: from an empty one on, whatever is requested, the layout holds and the user owns
      exactly what has arrived. */
  method ServeFromStart(requests: seq<Request>) returns (grid: UserGrid)
    requires SizesFit(requests)
    ensures fresh(grid) && GridOk(grid.State()) && Owned(grid.State()) == Arrivals(requests)
  {
    grid := new UserGrid();
    var _ := grid.Serve(requests);
  }

  datatype Request = InstallRequest(slotIndex: Option<int>, inventoryId: nat)
                   | MoveRequest(machineId: nat, targetSlotIndex: Option<int>)
                   | RemoveRequest(machineId: nat)
                   | ReceiveRequest(spec: Spec)

  predicate SizesFit(requests: seq<Request>) {
    forall i :: 0 <= i < |requests| && requests[i].ReceiveRequest? ==> SizeFits(requests[i].spec)
  }

  /** All that arrives during some requests. */
  ghost function Arrivals(requests: seq<Request>): multiset<Spec> {
    if requests == [] then multiset{}
    else
      var last := requests[|requests| - 1];
      Arrivals(requests[..|requests| - 1]) + (if last.ReceiveRequest? then multiset{last.spec} else multiset{})
  }

  function Received(g: Grid, spec: Spec): Grid {
    g.(inventory := g.inventory + [Item(g.nextItemId, spec)], nextItemId := g.nextItemId + 1)
  }

  lemma ReceivedKeeps(g: Grid, spec: Spec)
    requires GridOk(g) && SizeFits(spec)
    ensures GridOk(Received(g, spec)) && Owned(Received(g, spec)) == Owned(g) + multiset{spec}
  {
    hide Layout, DistinctItems, MachineSpecs, ItemSpecs;
    ItemSpecsAppend(g.inventory, Item(g.nextItemId, spec));
    NewItemIsDistinct(g.inventory, Item(g.nextItemId, spec));
  }

  lemma ItemFits(g: Grid, item: Item)
    requires GridOk(g) && item in g.inventory
    ensures SizeFits(item.spec)
  {
  }

  lemma MachineFits(g: Grid, m: Machine)
    requires GridOk(g) && m in g.machines
    ensures Placed(m)
  {
  }

  lemma RemoveKeeps(g: Grid, m: Machine)
    requires GridOk(g) && m in g.machines
    ensures GridOk(EvictOne(g, m)) && Owned(EvictOne(g, m)) == Owned(g)
  {
    EvictOneKeeps(g, m);
  }

  predicate Nameless(ms: seq<Machine>) {
    exists m :: m in ms && m.spec.minerId == 0
  }

  /** One more eviction, after the others. */
  lemma EvictEachSplits(g: Grid, ms: seq<Machine>)
    ensures forall m :: EvictEach(EvictEach(g, ms), [m]) == EvictEach(g, ms + [m])
    ensures ms + [] == ms
  {
    forall m ensures EvictEach(EvictEach(g, ms), [m]) == EvictEach(g, ms + [m]) {
      assert (ms + [m])[..|ms|] == ms && [m][..0] == [];
    }
  }

  /** What the eviction loop relies on: the table it reads later still has the same machine before an odd
      slot, and the obstacles are the machines in the way. */
  lemma RoomFacts(g: Grid, slot: int, size: nat, except: Option<nat>)
    requires GridOk(g) && 1 <= size <= 2 && (size == 2 ==> slot % 2 == 0)
    ensures var found := FindInSlots(g.machines, slot, size, except);
            slot % 2 == 1 ==>
                FindAtSlot(EvictEach(g, found).machines, slot - 1, except) == FindAtSlot(g.machines, slot - 1, except)
    ensures forall m :: m in Obstacles(g.machines, slot, size, except) <==>
              m in g.machines && InTheWay(m, slot, size, except)
  {
    ObstaclesAreInTheWay(g.machines, slot, size, except);
    var found := FindInSlots(g.machines, slot, size, except);
    FoundAreDistinct(g.machines, slot, size, except);
    EvictEachKeeps(g, found);
    if slot % 2 == 1 {
      var before, after := FindAtSlot(g.machines, slot - 1, except),
        FindAtSlot(EvictEach(g, found).machines, slot - 1, except);
      if before.Some? {
        OutsideStays(g.machines, found, before.value, slot, size, except);
      }
      if before.Some? && after.Some? {
        LayoutPlaces(g.machines, before.value);
        LayoutPlaces(g.machines, after.value);
        SameSlotSame(g.machines, before.value, after.value);
      }
    }
  }

  lemma OutsideStays(ms: seq<Machine>, found: seq<Machine>, x: Machine, slot: int, size: nat, except: Option<nat>)
    requires DistinctIds(ms) && x in ms && !(slot <= x.slotIndex < slot + size)
    requires found == FindInSlots(ms, slot, size, except)
    ensures forall m :: m in found ==> m.id != x.id
  {
    forall m | m in found ensures m.id != x.id {
      var i :| 0 <= i < |ms| && ms[i] == m;
      var j :| 0 <= j < |ms| && ms[j] == x;
    }
  }

  // ---------- looking at a slot ----------

  /** checkSlotAvailability, as written: alignment for two cells, the machines that start on the
      cells, and a two-cell machine before an odd slot. */
  predicate CheckSlotAvailability(ms: seq<Machine>, slot: nat, slotsNeeded: nat) {
    if slotsNeeded == 2 && slot % 2 != 0 then false
    else if FindInSlots(ms, slot, slotsNeeded, None) != [] then false
    else if slot % 2 == 1 then
      var prev := FindAtSlot(ms, slot - 1, None);
      !(prev.Some? && prev.value.spec.slotSize == 2)
    else true
  }

  predicate Covered(ms: seq<Machine>, cell: int) {
    exists m :: m in ms && Covers(m, cell)
  }

  /** On a good layout the check is right for any number of cells: it allows a place exactly when it is
      aligned and none of its cells is covered. */
  lemma AvailabilityIff(ms: seq<Machine>, slot: nat, slotsNeeded: nat)
    requires Layout(ms) && slotsNeeded >= 1
    ensures CheckSlotAvailability(ms, slot, slotsNeeded) <==>
              (slotsNeeded == 2 ==> slot % 2 == 0) && forall c :: slot <= c < slot + slotsNeeded ==> !Covered(ms, c)
  {
    if CheckSlotAvailability(ms, slot, slotsNeeded) {
      forall c | slot <= c < slot + slotsNeeded ensures !Covered(ms, c) {
        if Covered(ms, c) {
          var m :| m in ms && Covers(m, c);
          LayoutPlaces(ms, m);
          assert m !in FindInSlots(ms, slot, slotsNeeded, None);
          assert m.slotIndex == slot - 1;
          StartIsUnique(ms, m, FindAtSlot(ms, slot - 1, None).value);
        }
      }
    } else if slotsNeeded != 2 || slot % 2 == 0 {
      var found := FindInSlots(ms, slot, slotsNeeded, None);
      if found != [] {
        assert found[0] in found;
        LayoutPlaces(ms, found[0]);
        assert Covered(ms, found[0].slotIndex);
      } else {
        assert Covers(FindAtSlot(ms, slot - 1, None).value, slot);
        assert Covered(ms, slot);
      }
    }
  }

  lemma StartIsUnique(ms: seq<Machine>, a: Machine, b: Machine)
    requires Layout(ms) && a in ms && b in ms && a.slotIndex == b.slotIndex
    ensures a == b
  {
    LayoutPlaces(ms, a);
    LayoutPlaces(ms, b);
    SameSlotSame(ms, a, b);
  }

  /** getMachineDescriptor, its size: the row's own slot size if it has one, else by hash rate. */
  function DescriptorSize(slotSize: Option<int>, hashRate: real): int {
    if slotSize.Some? && slotSize.value != 0 then slotSize.value
    else if hashRate >= 100.0 then 2 else 1
  }

  datatype SlotView = Empty | First(machine: Machine) | Second(machine: Machine)

  function FindStart(ms: seq<Machine>, slot: int, size: Option<int>): (r: Option<Machine>)
    ensures r.Some? ==> r.value in ms && r.value.slotIndex == slot
    ensures r.Some? && size.Some? ==> DescriptorSize(Some(r.value.spec.slotSize), r.value.spec.hashRate) == size.value
    ensures r.None? ==>
              forall m :: m in ms && m.slotIndex == slot ==>
                size.Some? && DescriptorSize(Some(m.spec.slotSize), m.spec.hashRate) != size.value
  {
    if ms == [] then None
    else
      assert ms == [ms[0]] + ms[1..];
      if ms[0].slotIndex == slot &&
        (size.None? || DescriptorSize(Some(ms[0].spec.slotSize), ms[0].spec.hashRate) == size.value)
      then Some(ms[0]) else FindStart(ms[1..], slot, size)
  }

  /** getMachineBySlot on the client: the machine that starts here, else a two-cell one that starts one before. */
  function GetMachineBySlot(slot: int, ms: seq<Machine>): SlotView {
    var here := FindStart(ms, slot, None);
    if here.Some? then First(here.value)
    else
      var previous := FindStart(ms, slot - 1, Some(2));
      if previous.Some? then Second(previous.value) else Empty
  }

  /** On a good layout the client shows the one machine that covers the slot, and on which of its cells
      the slot is; and it shows nothing exactly when no machine covers it. */
  lemma ClientViewIff(slot: int, ms: seq<Machine>)
    requires Layout(ms)
    ensures match GetMachineBySlot(slot, ms)
            case Empty => !Covered(ms, slot)
            case First(m) =>
              && m in ms && Covers(m, slot) && m.slotIndex == slot
              && (forall x :: x in ms && Covers(x, slot) ==> x == m)
            case Second(m) =>
              && m in ms && Covers(m, slot) && m.slotIndex == slot - 1
              && (forall x :: x in ms && Covers(x, slot) ==> x == m)
  {
    forall x | x in ms
      ensures DescriptorSize(Some(x.spec.slotSize), x.spec.hashRate) == x.spec.slotSize
      ensures 1 <= x.spec.slotSize <= 2
    {
      LayoutPlaces(ms, x);
    }
    var view := GetMachineBySlot(slot, ms);
    if view != Empty {
      forall x | x in ms && Covers(x, slot) ensures x == view.machine {
        SameSlotSame(ms, x, view.machine);
      }
    }
  }

  /** getGlobalSlotIndex on the client and getRackAndLocalSlot on the server (which counts from one). */
  function GetGlobalSlotIndex(rack: int, local: int): int {
    (rack - 1) * SLOTS_PER_RACK + local
  }

  function GetRackAndLocalSlot(slotIndex: int): (int, int) {
    var safe := if slotIndex >= 0 then slotIndex else 0;
    (safe / SLOTS_PER_RACK + 1, safe % SLOTS_PER_RACK + 1)
  }

  /** The two numberings are inverse to each other, and no machine of a layout crosses a rack boundary. */
  lemma RackNumbering(rack: int, local: int, ms: seq<Machine>, m: Machine)
    requires rack >= 1 && 0 <= local < SLOTS_PER_RACK && Layout(ms) && m in ms
    ensures GetRackAndLocalSlot(GetGlobalSlotIndex(rack, local)) == (rack, local + 1)
    ensures var (r, l) := GetRackAndLocalSlot(m.slotIndex);
            && GetGlobalSlotIndex(r, l - 1) == m.slotIndex
            && 1 <= l && l + m.spec.slotSize - 1 <= SLOTS_PER_RACK
  {
    LayoutPlaces(ms, m);
  }
}
