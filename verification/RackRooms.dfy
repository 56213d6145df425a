/** Rooms and racks (server/controllers/roomsController.js): buying rooms, installing machines of any
    size into racks, taking them out again, and counting the free racks. The tables are those of one
    user; a rack row is named by its room and position, which the schema makes unique. */
module RackRooms {
  import opened Common
  import opened SlotGrid

  const SLOT_OFFSET := 1000

  /** RACKS_PER_ROOM, ROOM_MAX and ROOM_PRICES; a price that does not parse is None. */
  datatype Config = Config(racksPerRoom: nat, roomMax: nat, prices: seq<Option<real>>)

  datatype Room = Room(roomNumber: nat, pricePaid: real)

  datatype Place = Place(room: nat, position: nat)

  datatype Rack = Rack(userMinerId: Option<nat>, blockedByMinerId: Option<nat>, installedAt: Option<int>)

  datatype State = State(balance: Option<real>, rooms: seq<Room>, racks: map<Place, Rack>, miners: seq<Machine>,
                         inventory: seq<Item>, nextMinerId: nat, nextItemId: nat)

  const EMPTY_RACK := Rack(None, None, None)

  function RackSlotIndex(cfg: Config, p: Place): int {
    SLOT_OFFSET + (p.room as int - 1) * cfg.racksPerRoom + p.position
  }

  predicate Free(r: Rack) {
    r.userMinerId.None? && r.blockedByMinerId.None?
  }

  /** The cells a machine takes up in a rack: a size of zero counts as one. */
  function SizeOf(spec: Spec): nat {
    if spec.slotSize == 0 then 1 else spec.slotSize
  }

  /** Where a machine of some size at a place ends. */
  function EndOf(p: Place, spec: Spec): Place {
    Place(p.room, p.position + SizeOf(spec) - 1)
  }

  // ---------- invariant ----------

  /** The rooms owned are exactly 1 to n, and no more than there are. */
  ghost predicate RoomsOk(cfg: Config, rooms: seq<Room>) {
    |rooms| <= cfg.roomMax && forall i :: 0 <= i < |rooms| ==> rooms[i].roomNumber == i + 1
  }

  predicate InRooms(cfg: Config, rooms: seq<Room>, p: Place) {
    1 <= p.room <= |rooms| && p.position < cfg.racksPerRoom
  }

  /** Every owned room has a rack at each position, and there are no others. */
  ghost predicate RacksOk(cfg: Config, s: State) {
    forall p :: p in s.racks <==> InRooms(cfg, s.rooms, p)
  }

  predicate Hosts(racks: map<Place, Rack>, p: Place, minerId: nat) {
    p in racks && racks[p].userMinerId == Some(minerId)
  }

  /** What is installed in a rack is a machine of the user under the slot index of that rack. */
  ghost predicate HostedOk(cfg: Config, racks: map<Place, Rack>, miners: seq<Machine>) {
    && (forall p, k :: Hosts(racks, p, k) ==> FindMachine(miners, k).Some?)
    && (forall p, k :: Hosts(racks, p, k) ==> FindMachine(miners, k).value.slotIndex == RackSlotIndex(cfg, p))
  }

  ghost predicate HasHost(racks: map<Place, Rack>, minerId: nat) {
    exists p :: Hosts(racks, p, minerId)
  }

  /** Each machine stands in exactly one rack. */
  ghost predicate OneHost(racks: map<Place, Rack>, miners: seq<Machine>) {
    && (forall p, q, k :: Hosts(racks, p, k) && Hosts(racks, q, k) ==> p == q)
    && (forall m :: m in miners ==> HasHost(racks, m.id))
  }

  /** A rack says when its machine was installed, and only then. */
  ghost predicate DatesOk(racks: map<Place, Rack>) {
    forall p :: p in racks ==> (racks[p].installedAt.Some? <==> racks[p].userMinerId.Some?)
  }

  /** Rack `p` holds machine `k` of more than one cell, and `q` is where that machine ends. */
  ghost predicate Reaches(racks: map<Place, Rack>, miners: seq<Machine>, p: Place, k: nat, q: Place) {
    && Hosts(racks, p, k)
    && var m := FindMachine(miners, k);
       m.Some? && SizeOf(m.value.spec) >= 2 && q == EndOf(p, m.value.spec)
  }

  ghost predicate Reached(racks: map<Place, Rack>, miners: seq<Machine>, k: nat, q: Place) {
    exists p :: Reaches(racks, miners, p, k, q)
  }

  /** A rack is blocked by a machine exactly when that machine, from its own rack, reaches it. */
  ghost predicate BlocksOk(racks: map<Place, Rack>, miners: seq<Machine>) {
    forall q, k: nat {:trigger Reached(racks, miners, k, q)} ::
      (q in racks && racks[q].blockedByMinerId == Some(k)) <==> Reached(racks, miners, k, q)
  }

  /** No rack is both occupied and blocked. */
  ghost predicate NotBoth(racks: map<Place, Rack>) {
    forall p :: p in racks ==> racks[p].userMinerId.None? || racks[p].blockedByMinerId.None?
  }

  ghost predicate TablesOk(s: State) {
    && DistinctIds(s.miners) && DistinctItems(s.inventory)
    && (forall m :: m in s.miners ==> m.id < s.nextMinerId)
    && (forall i :: i in s.inventory ==> i.id < s.nextItemId)
  }

  ghost predicate Good(cfg: Config, s: State) {
    && RoomsOk(cfg, s.rooms) && RacksOk(cfg, s) && TablesOk(s)
    && HostedOk(cfg, s.racks, s.miners) && OneHost(s.racks, s.miners) && DatesOk(s.racks)
    && BlocksOk(s.racks, s.miners) && NotBoth(s.racks)
  }

  /** Everything the user owns, installed or not. */
  ghost function OwnedSpecs(s: State): multiset<Spec> {
    MachineSpecs(s.miners) + ItemSpecs(s.inventory)
  }

  // ---------- operations ----------

  function Occupied(r: Rack, minerId: nat, now: int): Rack {
    r.(userMinerId := Some(minerId), installedAt := Some(now))
  }

  /** The racks with a new machine at a place, and its end blocked if it has more than one cell. */
  function RacksWith(racks: map<Place, Rack>, p: Place, minerId: nat, spec: Spec, now: int): map<Place, Rack>
    requires p in racks && (SizeOf(spec) >= 2 ==> EndOf(p, spec) in racks)
  {
    var placed := racks[p := Occupied(racks[p], minerId, now)];
    if SizeOf(spec) >= 2 then placed[EndOf(p, spec) := placed[EndOf(p, spec)].(blockedByMinerId := Some(minerId))]
    else placed
  }

  function WithMiner(cfg: Config, s: State, p: Place, item: Item, now: int): State
    requires p in s.racks && (SizeOf(item.spec) >= 2 ==> EndOf(p, item.spec) in s.racks)
  {
    s.(racks := RacksWith(s.racks, p, s.nextMinerId, item.spec, now),
       miners := s.miners + [Machine(s.nextMinerId, RackSlotIndex(cfg, p), item.spec)],
       nextMinerId := s.nextMinerId + 1,
       inventory := DeleteItem(s.inventory, item.id))
  }

  function Released(r: Rack, minerId: nat): Rack {
    if r.blockedByMinerId == Some(minerId) then r.(blockedByMinerId := None) else r
  }

  /** The racks after emptying one and releasing those of the same room its machine blocks. */
  function RacksWithout(racks: map<Place, Rack>, p: Place, minerId: nat): map<Place, Rack>
    requires p in racks
  {
    var emptied := racks[p := racks[p].(userMinerId := None, installedAt := None)];
    map q | q in racks :: if q.room == p.room then Released(emptied[q], minerId) else emptied[q]
  }

  function WithoutMiner(s: State, p: Place, m: Machine): State
    requires p in s.racks
  {
    s.(racks := RacksWithout(s.racks, p, m.id),
       miners := Delete(s.miners, m.id),
       inventory := s.inventory + [Item(s.nextItemId, m.spec)],
       nextItemId := s.nextItemId + 1)
  }

  function NewRacks(cfg: Config, room: nat): map<Place, Rack> {
    map i | 0 <= i < cfg.racksPerRoom :: Place(room, i) := EMPTY_RACK
  }

  /** A new room with its racks, all free. */
  function WithRoom(cfg: Config, s: State, price: real): State {
    s.(balance := if price > 0.0 && s.balance.Some? then Some(s.balance.value - price) else s.balance,
       rooms := s.rooms + [Room(|s.rooms| + 1, price)],
       racks := s.racks + NewRacks(cfg, |s.rooms| + 1))
  }

  // ---------- a new room ----------

  lemma WithRoomKeeps(cfg: Config, s: State, price: real)
    requires Good(cfg, s) && |s.rooms| < cfg.roomMax
    ensures Good(cfg, WithRoom(cfg, s, price)) && OwnedSpecs(WithRoom(cfg, s, price)) == OwnedSpecs(s)
  {
    hide TablesOk, HostedOk, OneHost, DatesOk, BlocksOk, NotBoth, RacksOk, NewRacks;
    var t := WithRoom(cfg, s, price);
    assert TablesOk(t) by {
      SameTables(s, t);
    }
    RoomAddsFreeRacks(cfg, s, price);
    SameHosts(cfg, s.racks, t.racks, s.miners);
  }

  lemma SameTables(s: State, t: State)
    requires TablesOk(s) && t.miners == s.miners && t.inventory == s.inventory && t.nextMinerId == s.nextMinerId &&
             t.nextItemId == s.nextItemId
    ensures TablesOk(t)
  {
  }

  /** Racks that were there stay as they are, and any other is empty. */
  ghost predicate OnlyAdds(racks: map<Place, Rack>, racks': map<Place, Rack>) {
    && (forall p :: p in racks ==> p in racks' && racks'[p] == racks[p])
    && (forall p :: p in racks' && p !in racks ==> racks'[p] == EMPTY_RACK)
  }

  lemma RoomAddsFreeRacks(cfg: Config, s: State, price: real)
    requires RacksOk(cfg, s)
    ensures RacksOk(cfg, WithRoom(cfg, s, price)) && OnlyAdds(s.racks, WithRoom(cfg, s, price).racks)
  {
    var room := |s.rooms| + 1;
    forall p ensures p in NewRacks(cfg, room) <==> p.room == room && p.position < cfg.racksPerRoom {
      if p.room == room && p.position < cfg.racksPerRoom {
        assert Place(room, p.position) == p;
      }
    }
  }

  lemma SameHosts(cfg: Config, racks: map<Place, Rack>, racks': map<Place, Rack>, miners: seq<Machine>)
    requires OnlyAdds(racks, racks')
    requires HostedOk(cfg, racks, miners) && OneHost(racks, miners) && DatesOk(racks) && BlocksOk(racks, miners) &&
             NotBoth(racks)
    ensures HostedOk(cfg, racks', miners) && OneHost(racks', miners) && DatesOk(racks') && BlocksOk(racks', miners) &&
            NotBoth(racks')
  {
    assert forall p, k :: Hosts(racks', p, k) <==> Hosts(racks, p, k);
    forall m | m in miners ensures HasHost(racks', m.id) {
      var p :| Hosts(racks, p, m.id);
      assert Hosts(racks', p, m.id);
    }
    forall q, k: nat ensures Reached(racks', miners, k, q) <==> Reached(racks, miners, k, q) {
      if Reached(racks, miners, k, q) {
        var p :| Reaches(racks, miners, p, k, q);
        assert Reaches(racks', miners, p, k, q);
      }
      if Reached(racks', miners, k, q) {
        var p :| Reaches(racks', miners, p, k, q);
        assert Reaches(racks, miners, p, k, q);
      }
    }
  }

  // ---------- installing ----------

  /** A place accepts a machine when it is free and, for more than one cell, so is the place it ends at. */
  predicate Accepts(racks: map<Place, Rack>, p: Place, spec: Spec) {
    && p in racks && Free(racks[p])
    && (SizeOf(spec) >= 2 ==> EndOf(p, spec) in racks && Free(racks[EndOf(p, spec)]))
  }

  lemma {:induction false} FindAppended(ms: seq<Machine>, m: Machine, k: nat)
    requires forall x :: x in ms ==> x.id != m.id
    ensures FindMachine(ms + [m], k) == if k == m.id then Some(m) else FindMachine(ms, k)
  {
    if ms == [] {
      assert ms + [m] == [m];
    } else {
      assert (ms + [m])[1..] == ms[1..] + [m] && ms[0] in ms;
      FindAppended(ms[1..], m, k);
    }
  }

  lemma {:induction false} FindDeleted(ms: seq<Machine>, id: nat, k: nat)
    ensures FindMachine(Delete(ms, id), k) == if k == id then None else FindMachine(ms, k)
  {
    if ms == [] {
    } else {
      FindDeleted(ms[1..], id, k);
    }
  }

  /** Racks and machines after an installation, seen through who hosts and reaches what. */
  lemma WithReaches(racks: map<Place, Rack>, miners: seq<Machine>, p: Place, m: Machine, now: int, q: Place, k: nat)
    requires Accepts(racks, p, m.spec) && forall x :: x in miners ==> x.id != m.id
    ensures var racks' := RacksWith(racks, p, m.id, m.spec, now);
            && (forall r: Place, j :: Hosts(racks', r, j) <==> (r == p && j == m.id) || Hosts(racks, r, j))
            && (k != m.id ==> (Reached(racks', miners + [m], k, q) <==> Reached(racks, miners, k, q)))
            && (!HasHost(racks, m.id) ==>
                 (Reached(racks', miners + [m], m.id, q) <==> SizeOf(m.spec) >= 2 && q == EndOf(p, m.spec)))
  {
    var racks' := RacksWith(racks, p, m.id, m.spec, now);
    FindAppended(miners, m, k);
    FindAppended(miners, m, m.id);
    assert forall r: Place, j :: Hosts(racks', r, j) <==> (r == p && j == m.id) || Hosts(racks, r, j);
    if k != m.id {
      assert forall r :: Reaches(racks', miners + [m], r, k, q) <==> Reaches(racks, miners, r, k, q);
    }
    if !HasHost(racks, m.id) {
      assert Reaches(racks', miners + [m], p, m.id, q) <==> SizeOf(m.spec) >= 2 && q == EndOf(p, m.spec);
      assert forall r :: Reaches(racks', miners + [m], r, m.id, q) ==> r == p;
    }
  }

  lemma WithBlocks(racks: map<Place, Rack>, miners: seq<Machine>, p: Place, m: Machine, now: int)
    requires Accepts(racks, p, m.spec) && (forall x :: x in miners ==> x.id != m.id) && !HasHost(racks, m.id)
    requires BlocksOk(racks, miners) && NotBoth(racks)
    ensures var racks' := RacksWith(racks, p, m.id, m.spec, now);
            BlocksOk(racks', miners + [m]) && NotBoth(racks')
  {
    var racks' := RacksWith(racks, p, m.id, m.spec, now);
    forall q, k: nat
      ensures (q in racks' && racks'[q].blockedByMinerId == Some(k)) <==> Reached(racks', miners + [m], k, q)
    {
      WithReaches(racks, miners, p, m, now, q, k);
      assert Reached(racks, miners, k, q) <==> (q in racks && racks[q].blockedByMinerId == Some(k));
      assert Reached(racks, miners, m.id, q) ==> HasHost(racks, m.id);
      assert Reached(racks, miners, m.id, q) <==> (q in racks && racks[q].blockedByMinerId == Some(m.id));
    }
  }

  lemma WithHosts(cfg: Config, racks: map<Place, Rack>, miners: seq<Machine>, p: Place, m: Machine, now: int)
    requires Accepts(racks, p, m.spec) && (forall x :: x in miners ==> x.id != m.id) &&
             m.slotIndex == RackSlotIndex(cfg, p)
    requires HostedOk(cfg, racks, miners) && OneHost(racks, miners) && DatesOk(racks)
    ensures !HasHost(racks, m.id)
    ensures var racks' := RacksWith(racks, p, m.id, m.spec, now);
            HostedOk(cfg, racks', miners + [m]) && OneHost(racks', miners + [m]) && DatesOk(racks')
  {
    var racks' := RacksWith(racks, p, m.id, m.spec, now);
    WithReaches(racks, miners, p, m, now, p, m.id);
    forall q, k | Hosts(racks', q, k)
      ensures FindMachine(miners + [m], k).Some? &&
              FindMachine(miners + [m], k).value.slotIndex == RackSlotIndex(cfg, q)
    {
      FindAppended(miners, m, k);
    }
    assert Hosts(racks', p, m.id);
    forall x | x in miners + [m] ensures HasHost(racks', x.id) {
      if x in miners {
        var q :| Hosts(racks, q, x.id);
        assert Hosts(racks', q, x.id);
      }
    }
  }

  lemma TablesWith(s: State, m: Machine, item: Item)
    requires TablesOk(s) && item in s.inventory && m.id == s.nextMinerId && m.spec == item.spec
    ensures TablesOk(s.(miners := s.miners + [m], nextMinerId := m.id + 1,
                        inventory := DeleteItem(s.inventory, item.id)))
    ensures MachineSpecs(s.miners + [m]) + ItemSpecs(DeleteItem(s.inventory, item.id)) == OwnedSpecs(s)
    ensures forall x :: x in s.miners ==> x.id != m.id
  {
    hide MachineSpecs, ItemSpecs, DeleteItem, DistinctItems;
    MachineSpecsAppend(s.miners, m);
    DeleteItemFacts(s.inventory, item);
    DeleteItemMember(s.inventory, item.id);
  }

  /** An accepted installation keeps the invariant and everything owned. */
  lemma WithMinerKeeps(cfg: Config, s: State, p: Place, item: Item, now: int)
    requires Good(cfg, s) && item in s.inventory && Accepts(s.racks, p, item.spec)
    ensures Good(cfg, WithMiner(cfg, s, p, item, now)) && OwnedSpecs(WithMiner(cfg, s, p, item, now)) == OwnedSpecs(s)
  {
    hide HostedOk, OneHost, DatesOk, BlocksOk, NotBoth, TablesOk, MachineSpecs, ItemSpecs, DeleteItem, RacksWith;
    var m := Machine(s.nextMinerId, RackSlotIndex(cfg, p), item.spec);
    var t := WithMiner(cfg, s, p, item, now);
    TablesWith(s, m, item);
    assert TablesOk(t) by {
      SameTables(s.(miners := s.miners + [m], nextMinerId := m.id + 1, inventory := DeleteItem(s.inventory, item.id)),
                 t);
    }
    WithHosts(cfg, s.racks, s.miners, p, m, now);
    WithBlocks(s.racks, s.miners, p, m, now);
    SamePlaces(s.racks, p, m.id, item.spec, now);
  }

  lemma SamePlaces(racks: map<Place, Rack>, p: Place, id: nat, spec: Spec, now: int)
    requires Accepts(racks, p, spec)
    ensures RacksWith(racks, p, id, spec, now).Keys == racks.Keys
  {
  }

  // ---------- taking out ----------

  lemma WithoutReaches(racks: map<Place, Rack>, miners: seq<Machine>, p: Place, id: nat, q: Place, k: nat)
    requires Hosts(racks, p, id) && OneHost(racks, miners)
    ensures var racks' := RacksWithout(racks, p, id);
            && (forall r: Place, j :: Hosts(racks', r, j) <==> r != p && Hosts(racks, r, j))
            && (Reached(racks', Delete(miners, id), k, q) <==> k != id && Reached(racks, miners, k, q))
  {
    var racks' := RacksWithout(racks, p, id);
    FindDeleted(miners, id, k);
    assert forall r: Place, j :: Hosts(racks', r, j) <==> r != p && Hosts(racks, r, j);
    assert forall r :: Reaches(racks', Delete(miners, id), r, k, q) <==> k != id && Reaches(racks, miners, r, k, q);
  }

  lemma WithoutBlocks(racks: map<Place, Rack>, miners: seq<Machine>, p: Place, id: nat)
    requires Hosts(racks, p, id) && OneHost(racks, miners) && BlocksOk(racks, miners) && NotBoth(racks)
    ensures BlocksOk(RacksWithout(racks, p, id), Delete(miners, id)) && NotBoth(RacksWithout(racks, p, id))
  {
    var racks' := RacksWithout(racks, p, id);
    forall q, k: nat
      ensures (q in racks' && racks'[q].blockedByMinerId == Some(k)) <==> Reached(racks', Delete(miners, id), k, q)
    {
      WithoutReaches(racks, miners, p, id, q, k);
      assert Reached(racks, miners, k, q) <==> (q in racks && racks[q].blockedByMinerId == Some(k));
      if q in racks && racks[q].blockedByMinerId == Some(id) {
        assert Reached(racks, miners, id, q);
        var r :| Reaches(racks, miners, r, id, q);
        assert r == p;
      }
    }
  }

  lemma WithoutHosts(cfg: Config, racks: map<Place, Rack>, miners: seq<Machine>, p: Place, id: nat)
    requires Hosts(racks, p, id) && HostedOk(cfg, racks, miners) && OneHost(racks, miners) && DatesOk(racks)
    ensures var racks' := RacksWithout(racks, p, id);
            HostedOk(cfg, racks', Delete(miners, id)) && OneHost(racks', Delete(miners, id)) && DatesOk(racks')
  {
    var racks' := RacksWithout(racks, p, id);
    WithoutReaches(racks, miners, p, id, p, id);
    DeleteMember(miners, id);
    forall q, k | Hosts(racks', q, k)
      ensures FindMachine(Delete(miners, id), k).Some? &&
              FindMachine(Delete(miners, id), k).value.slotIndex == RackSlotIndex(cfg, q)
    {
      assert k != id;
      FindDeleted(miners, id, k);
    }
    forall x | x in Delete(miners, id) ensures HasHost(racks', x.id) {
      var q :| Hosts(racks, q, x.id);
      assert Hosts(racks', q, x.id);
    }
  }

  lemma TablesWithout(s: State, m: Machine)
    requires TablesOk(s) && m in s.miners
    ensures TablesOk(s.(miners := Delete(s.miners, m.id), inventory := s.inventory + [Item(s.nextItemId, m.spec)],
                        nextItemId := s.nextItemId + 1))
    ensures MachineSpecs(Delete(s.miners, m.id)) + ItemSpecs(s.inventory + [Item(s.nextItemId, m.spec)])
            == OwnedSpecs(s)
  {
    hide MachineSpecs, ItemSpecs, Delete, DistinctIds, DistinctItems;
    DeleteSpecs(s.miners, m);
    DeleteMember(s.miners, m.id);
    DeleteKeepsDistinct(s.miners, m.id);
    ItemSpecsAppend(s.inventory, Item(s.nextItemId, m.spec));
    NewItemIsDistinct(s.inventory, Item(s.nextItemId, m.spec));
  }

  lemma {:induction false} DeleteKeepsDistinct(ms: seq<Machine>, id: nat)
    requires DistinctIds(ms)
    ensures DistinctIds(Delete(ms, id))
  {
    if ms == [] {
    } else {
      DeleteKeepsDistinct(ms[1..], id);
      DeleteMember(ms[1..], id);
      var d := Delete(ms[1..], id);
      forall j | 0 <= j < |d| ensures d[j].id != ms[0].id {
        assert d[j] in ms[1..];
        var k :| 0 <= k < |ms[1..]| && ms[1..][k] == d[j];
        assert ms[k + 1] == d[j];
      }
    }
  }

  /** Taking a machine out keeps the invariant and everything owned. */
  lemma WithoutMinerKeeps(cfg: Config, s: State, p: Place, m: Machine)
    requires Good(cfg, s) && m in s.miners && Hosts(s.racks, p, m.id)
    ensures Good(cfg, WithoutMiner(s, p, m)) && OwnedSpecs(WithoutMiner(s, p, m)) == OwnedSpecs(s)
  {
    hide HostedOk, OneHost, DatesOk, BlocksOk, NotBoth, TablesOk, MachineSpecs, ItemSpecs, Delete;
    var t := WithoutMiner(s, p, m);
    TablesWithout(s, m);
    assert TablesOk(t) by {
      SameTables(s.(miners := Delete(s.miners, m.id), inventory := s.inventory + [Item(s.nextItemId, m.spec)],
                    nextItemId := s.nextItemId + 1), t);
    }
    WithoutHosts(cfg, s.racks, s.miners, p, m.id);
    WithoutBlocks(s.racks, s.miners, p, m.id);
  }

  // ---------- installations that overlap ----------

  /** The writes of an installation do not look again. On whatever the tables have become they keep the
      invariant exactly when the place still accepts the machine. */
  lemma InstallWriteIff(cfg: Config, s: State, p: Place, item: Item, now: int)
    requires Good(cfg, s) && item in s.inventory
    requires p in s.racks && (SizeOf(item.spec) >= 2 ==> EndOf(p, item.spec) in s.racks)
    ensures Good(cfg, WithMiner(cfg, s, p, item, now)) <==> Accepts(s.racks, p, item.spec)
  {
    hide Good;
    if Accepts(s.racks, p, item.spec) {
      WithMinerKeeps(cfg, s, p, item, now);
    } else if Good(cfg, WithMiner(cfg, s, p, item, now)) {
      if s.racks[p].userMinerId.Some? {
        HostIsLost(cfg, s, p, item, now);
      } else if !Free(s.racks[p]) || s.racks[EndOf(p, item.spec)].userMinerId.Some? {
        TakenTwice(cfg, s, p, item, now);
      } else {
        BlockIsLost(cfg, s, p, item, now);
      }
      assert false;
    }
  }

  lemma HostIsLost(cfg: Config, s: State, p: Place, item: Item, now: int)
    requires Good(cfg, s) && p in s.racks && (SizeOf(item.spec) >= 2 ==> EndOf(p, item.spec) in s.racks)
    requires s.racks[p].userMinerId.Some?
    ensures !Good(cfg, WithMiner(cfg, s, p, item, now))
  {
    hide BlocksOk, DatesOk, NotBoth, RacksOk, RoomsOk;
    var k, t := s.racks[p].userMinerId.value, WithMiner(cfg, s, p, item, now);
    assert Hosts(s.racks, p, k);
    var m := FindMachine(s.miners, k).value;
    assert m in t.miners;
    assert k < s.nextMinerId;
    forall q ensures !Hosts(t.racks, q, k) {
      assert Hosts(t.racks, q, k) ==> q != p && Hosts(s.racks, q, k);
    }
    assert !HasHost(t.racks, k);
  }

  lemma TakenTwice(cfg: Config, s: State, p: Place, item: Item, now: int)
    requires p in s.racks && (SizeOf(item.spec) >= 2 ==> EndOf(p, item.spec) in s.racks)
    requires s.racks[p].blockedByMinerId.Some? ||
             (SizeOf(item.spec) >= 2 && s.racks[EndOf(p, item.spec)].userMinerId.Some?)
    ensures !NotBoth(WithMiner(cfg, s, p, item, now).racks) && !Good(cfg, WithMiner(cfg, s, p, item, now))
  {
    hide BlocksOk, DatesOk, RacksOk, RoomsOk, OneHost, HostedOk, TablesOk;
    var racks := WithMiner(cfg, s, p, item, now).racks;
    assert racks[p].userMinerId.Some?;
    if s.racks[p].blockedByMinerId.Some? {
      assert racks[p].blockedByMinerId.Some?;
    } else {
      var e := EndOf(p, item.spec);
      assert e != p && racks[e].userMinerId.Some? && racks[e].blockedByMinerId.Some?;
    }
  }

  lemma BlockIsLost(cfg: Config, s: State, p: Place, item: Item, now: int)
    requires Good(cfg, s) && p in s.racks && s.racks[p].userMinerId.None?
    requires SizeOf(item.spec) >= 2 && EndOf(p, item.spec) in s.racks
    requires s.racks[EndOf(p, item.spec)].blockedByMinerId.Some?
    ensures !Good(cfg, WithMiner(cfg, s, p, item, now))
  {
    hide DatesOk, NotBoth, RacksOk, RoomsOk, OneHost;
    var e, t := EndOf(p, item.spec), WithMiner(cfg, s, p, item, now);
    var k := s.racks[e].blockedByMinerId.value;
    assert Reached(s.racks, s.miners, k, e);
    var q :| Reaches(s.racks, s.miners, q, k, e);
    var m := Machine(s.nextMinerId, RackSlotIndex(cfg, p), item.spec);
    FindAppended(s.miners, m, k);
    assert FindMachine(s.miners, k).value in s.miners;
    assert Reaches(t.racks, t.miners, q, k, e);
    assert Reached(t.racks, t.miners, k, e);
  }

  /** A machine of two cells and one of one cell at the end of the first, both accepted before either is
      written: the shared rack ends both occupied and blocked. */
  lemma OverlappingInstallsCollide(cfg: Config, s: State, p: Place, wide: Item, narrow: Item, now: int)
    requires Good(cfg, s) && wide in s.inventory && narrow in s.inventory && wide.id != narrow.id
    requires SizeOf(wide.spec) == 2 && Accepts(s.racks, p, wide.spec) &&
             Accepts(s.racks, EndOf(p, wide.spec), narrow.spec)
    requires SizeOf(narrow.spec) == 1
    ensures var q := EndOf(p, wide.spec);
            var t := WithMiner(cfg, WithMiner(cfg, s, p, wide, now), q, narrow, now);
            && t.racks[q].userMinerId.Some? && t.racks[q].blockedByMinerId.Some? && !Good(cfg, t)
  {
    hide BlocksOk, DatesOk, RacksOk, RoomsOk, OneHost, HostedOk, TablesOk;
    TakenTwice(cfg, WithMiner(cfg, s, p, wide, now), EndOf(p, wide.spec), narrow, now);
  }

  // ---------- round trip ----------

  lemma {:induction false} DeleteAppended(ms: seq<Machine>, m: Machine)
    requires forall x :: x in ms ==> x.id != m.id
    ensures Delete(ms + [m], m.id) == ms
  {
    if ms == [] {
      assert ms + [m] == [m];
      assert [m][1..] == [];
    } else {
      assert (ms + [m])[1..] == ms[1..] + [m] && ms[0] in ms;
      DeleteAppended(ms[1..], m);
    }
  }

  /** Installing an item and taking it out again restores every rack and machine row, and gives back an
      item of the same kind in place of the one installed. */
  lemma InstallUninstall(cfg: Config, s: State, p: Place, item: Item, now: int)
    requires Good(cfg, s) && item in s.inventory && Accepts(s.racks, p, item.spec)
    ensures var m := Machine(s.nextMinerId, RackSlotIndex(cfg, p), item.spec);
            var r := WithoutMiner(WithMiner(cfg, s, p, item, now), p, m);
            && r.racks == s.racks && r.miners == s.miners && r.rooms == s.rooms && r.balance == s.balance
            && r.inventory == DeleteItem(s.inventory, item.id) + [Item(s.nextItemId, item.spec)]
            && ItemSpecs(r.inventory) == ItemSpecs(s.inventory)
  {
    hide HostedOk, OneHost, BlocksOk, NotBoth, RacksOk, MachineSpecs, ItemSpecs;
    var m := Machine(s.nextMinerId, RackSlotIndex(cfg, p), item.spec);
    DeleteAppended(s.miners, m);
    DeleteItemFacts(s.inventory, item);
    ItemSpecsAppend(DeleteItem(s.inventory, item.id), Item(s.nextItemId, item.spec));
    NobodyBlocks(cfg, s, m.id);
    var racks := RacksWithout(RacksWith(s.racks, p, m.id, m.spec, now), p, m.id);
    assert racks == s.racks;
  }

  lemma NobodyBlocks(cfg: Config, s: State, k: nat)
    requires Good(cfg, s) && k >= s.nextMinerId
    ensures forall q :: q in s.racks ==> s.racks[q].blockedByMinerId != Some(k)
  {
    forall q | q in s.racks && s.racks[q].blockedByMinerId.Some?
      ensures s.racks[q].blockedByMinerId.value < s.nextMinerId
    {
      assert Reached(s.racks, s.miners, s.racks[q].blockedByMinerId.value, q);
    }
  }

  /** A machine of one or two cells takes every place it covers. */
  lemma CoveredPlacesTaken(cfg: Config, s: State, p: Place, item: Item, now: int, c: nat)
    requires Accepts(s.racks, p, item.spec) && SizeOf(item.spec) <= 2 && p.position <= c <= EndOf(p, item.spec).position
    ensures var covered := Place(p.room, c);
            var racks := WithMiner(cfg, s, p, item, now).racks;
            covered in racks && !Free(racks[covered])
  {
    CoveredPlacesTakenIff(cfg, s, p, item, now);
    assert Place(p.room, p.position) == p;
  }

  /** The code records the two ends of a machine of any size: all places it covers are taken exactly when
      those strictly between its ends were taken before. */
  lemma CoveredPlacesTakenIff(cfg: Config, s: State, p: Place, item: Item, now: int)
    requires Accepts(s.racks, p, item.spec)
    ensures var last := EndOf(p, item.spec).position;
            (forall c: nat :: p.position <= c <= last && Place(p.room, c) in s.racks ==>
               !Free(WithMiner(cfg, s, p, item, now).racks[Place(p.room, c)]))
            <==> (forall c: nat :: p.position < c < last && Place(p.room, c) in s.racks ==>
                  !Free(s.racks[Place(p.room, c)]))
  {
    var racks, last := WithMiner(cfg, s, p, item, now).racks, EndOf(p, item.spec).position;
    forall c: nat | p.position < c < last && Place(p.room, c) in s.racks
      ensures racks[Place(p.room, c)] == s.racks[Place(p.room, c)]
    {
    }
    assert !Free(racks[p]) && (SizeOf(item.spec) >= 2 ==> !Free(racks[EndOf(p, item.spec)]));
    assert Place(p.room, p.position) == p && Place(p.room, last) == EndOf(p, item.spec);
  }

  // ---------- counting ----------

  function OccupiedIn(s: State, room: nat): set<Place> {
    set p | p in s.racks && p.room == room && !Free(s.racks[p])
  }

  function RacksIn(s: State, room: nat): set<Place> {
    set p | p in s.racks && p.room == room
  }

  /** The two sums of listRooms over the rooms found, up to the n-th. */
  function TotalRacks(s: State, n: nat): nat {
    if n == 0 then 0 else TotalRacks(s, n - 1) + |RacksIn(s, n)|
  }

  function OccupiedRacks(s: State, n: nat): nat {
    if n == 0 then 0 else OccupiedRacks(s, n - 1) + |OccupiedIn(s, n)|
  }

  /** listRooms.freeRacks */
  function FreeRacks(s: State): int {
    TotalRacks(s, |s.rooms|) - OccupiedRacks(s, |s.rooms|)
  }

  /** getSlotsSummary.freeRacks: all racks less those a machine stands in. */
  function SummaryFreeRacks(s: State): int {
    |s.racks| - |(set p | p in s.racks && s.racks[p].userMinerId.Some?)|
  }

  ghost predicate AcceptsOneCell(s: State, p: Place) {
    forall spec: Spec :: SizeOf(spec) == 1 ==> Accepts(s.racks, p, spec)
  }

  function RacksUpTo(s: State, n: nat): set<Place> {
    set p | p in s.racks && 1 <= p.room <= n
  }

  function OccupiedUpTo(s: State, n: nat): set<Place> {
    set p | p in s.racks && 1 <= p.room <= n && !Free(s.racks[p])
  }

  /** The sums over the rooms count the racks of all of them. */
  lemma {:induction false} SumsSplit(s: State, n: nat)
    ensures TotalRacks(s, n) == |RacksUpTo(s, n)| && OccupiedRacks(s, n) == |OccupiedUpTo(s, n)|
  {
    hide RacksUpTo, OccupiedUpTo, RacksIn, OccupiedIn;
    OneRoomMore(s, n);
    if n == 0 {
    } else {
      SumsSplit(s, n - 1);
    }
  }

  lemma OneRoomMore(s: State, n: nat)
    ensures n == 0 ==> RacksUpTo(s, n) == {} && OccupiedUpTo(s, n) == {}
    ensures n > 0 ==> |RacksUpTo(s, n)| == |RacksUpTo(s, n - 1)| + |RacksIn(s, n)|
    ensures n > 0 ==> |OccupiedUpTo(s, n)| == |OccupiedUpTo(s, n - 1)| + |OccupiedIn(s, n)|
  {
    hide Free;
    if n > 0 {
      assert RacksUpTo(s, n) == RacksUpTo(s, n - 1) + RacksIn(s, n);
      assert OccupiedUpTo(s, n) == OccupiedUpTo(s, n - 1) + OccupiedIn(s, n);
    }
  }

  /** The free racks that listRooms reports are exactly the places that accept any one-cell machine; the
      summary reports more, by exactly the number of blocked racks. */
  lemma FreeRacksCount(cfg: Config, s: State)
    requires Good(cfg, s)
    ensures FreeRacks(s) == |set p | p in s.racks && AcceptsOneCell(s, p)|
    ensures SummaryFreeRacks(s) - FreeRacks(s) == |set p | p in s.racks && s.racks[p].blockedByMinerId.Some?|
  {
    hide HostedOk, OneHost, DatesOk, BlocksOk, TablesOk, Accepts, Free;
    var taken := set p | p in s.racks && !Free(s.racks[p]);
    SumsSplit(s, |s.rooms|);
    assert RacksUpTo(s, |s.rooms|) == s.racks.Keys;
    assert OccupiedUpTo(s, |s.rooms|) == taken;
    FreeAccepts(s);
    assert (set p | p in s.racks && AcceptsOneCell(s, p)) == s.racks.Keys - taken;
    TakenSplits(s.racks);
  }

  lemma FreeAccepts(s: State)
    ensures forall p :: p in s.racks ==> (AcceptsOneCell(s, p) <==> Free(s.racks[p]))
  {
    forall p | p in s.racks ensures AcceptsOneCell(s, p) <==> Free(s.racks[p]) {
      assert SizeOf(Spec(0, 0, 0.0, 1)) == 1;
    }
  }

  lemma TakenSplits(racks: map<Place, Rack>)
    requires NotBoth(racks)
    ensures |set p | p in racks && !Free(racks[p])| ==
              |set p | p in racks && racks[p].userMinerId.Some?|
              + |set p | p in racks && racks[p].blockedByMinerId.Some?|
  {
    var hosting := set p | p in racks && racks[p].userMinerId.Some?;
    var blocked := set p | p in racks && racks[p].blockedByMinerId.Some?;
    assert (set p | p in racks && !Free(racks[p])) == hosting + blocked;
    assert hosting * blocked == {};
  }

  /** Different racks of owned rooms give their machines different slot indices, all above the grid's. */
  lemma SlotIndicesDiffer(cfg: Config, rooms: seq<Room>, p: Place, q: Place)
    requires InRooms(cfg, rooms, p) && InRooms(cfg, rooms, q)
    ensures RackSlotIndex(cfg, p) >= SLOT_OFFSET > SLOTS
    ensures RackSlotIndex(cfg, p) == RackSlotIndex(cfg, q) ==> p == q
  {
    RowMajor(p.room as int - 1, q.room as int - 1, cfg.racksPerRoom, p.position, q.position);
  }

  /** They number the racks one after the other from 1000 on, room by room. */
  lemma SlotIndicesFollow(cfg: Config, room: nat, position: nat)
    requires room >= 1 && position < cfg.racksPerRoom
    ensures RackSlotIndex(cfg, Place(1, 0)) == 1000
    ensures RackSlotIndex(cfg, Place(room, position + 1)) == RackSlotIndex(cfg, Place(room, position)) + 1
    ensures RackSlotIndex(cfg, Place(room + 1, 0)) == RackSlotIndex(cfg, Place(room, cfg.racksPerRoom - 1)) + 1
  {
  }

  lemma RowMajor(a: int, b: int, width: int, i: int, j: int)
    requires 0 <= a && 0 <= i < width && 0 <= j < width
    ensures a * width + i >= 0
    ensures a * width + i == b * width + j ==> a == b && i == j
  {
    if a < b {
      AtLeastWidth(b - a, width);
      assert b * width - a * width == (b - a) * width;
    } else if b < a {
      AtLeastWidth(a - b, width);
      assert a * width - b * width == (a - b) * width;
    }
    if a > 0 {
      AtLeastWidth(a, width);
    }
  }

  lemma AtLeastWidth(n: int, width: int)
    requires n >= 1 && width >= 0
    ensures n * width >= width
  {
    assert n * width == (n - 1) * width + width;
  }

  // ---------- the controller ----------

  /** The configured price of a room; beyond the list a room is free. */
  function PriceOf(cfg: Config, room: nat): real {
    if 1 <= room <= |cfg.prices| && cfg.prices[room - 1].Some? then cfg.prices[room - 1].value else 0.0
  }

  /** The configured prices of the first rooms. */
  function PricesOf(cfg: Config, rooms: nat): real {
    if rooms == 0 then 0.0 else PricesOf(cfg, rooms - 1) + PriceOf(cfg, rooms)
  }

  /** What a user has spent on rooms, and still has. */
  function Funds(cfg: Config, s: State): Option<real> {
    if s.balance.None? then None else Some(s.balance.value + PricesOf(cfg, |s.rooms|))
  }

  datatype BuyResult =
    RoomBought(roomNumber: nat) | MaxRoomsReached | BadPriceConfig | UserNotFound | InsufficientBalance

  datatype InstallResult =
    Installed | InvalidId | RackNotFound | RackOccupied | ItemNotFound | NoSpace | AdjacentOccupied

  datatype UninstallResult = Uninstalled | InvalidRackId | NoSuchRack | RackEmpty

  class RoomStore {
    const cfg: Config
    var balance: Option<real>
    var rooms: seq<Room>
    var racks: map<Place, Rack>
    var miners: seq<Machine>
    var inventory: seq<Item>
    var nextMinerId: nat
    var nextItemId: nat

    ghost function Now(): State
      reads this
    {
      State(balance, rooms, racks, miners, inventory, nextMinerId, nextItemId)
    }

    constructor (cfg: Config, balance: Option<real>)
      ensures this.cfg == cfg && this.balance == balance && rooms == [] && Good(cfg, Now()) &&
              OwnedSpecs(Now()) == multiset{}
    {
      this.cfg, this.balance := cfg, balance;
      rooms, racks, miners, inventory := [], map[], [], [];
      nextMinerId, nextItemId := 1, 1;
    }

    /** A bought, won or claimed machine arrives in the inventory. */
    method Receive(spec: Spec)
      requires Good(cfg, Now())
      modifies this
      ensures Good(cfg, Now()) && OwnedSpecs(Now()) == old(OwnedSpecs(Now())) + multiset{spec}
      ensures Now() == WithItem(old(Now()), spec) && Funds(cfg, Now()) == old(Funds(cfg, Now()))
    {
      hide Good, OwnedSpecs;
      WithItemKeeps(cfg, Now(), spec);
      inventory := inventory + [Item(nextItemId, spec)];
      nextItemId := nextItemId + 1;
    }

    method BuyRoom() returns (r: BuyResult)
      requires Good(cfg, Now())
      modifies this
      ensures Good(cfg, Now()) && OwnedSpecs(Now()) == old(OwnedSpecs(Now()))
      ensures Funds(cfg, Now()) == old(Funds(cfg, Now()))
      ensures var next := |old(rooms)| + 1;
              r == if next > cfg.roomMax then MaxRoomsReached
                   else
                     var price := if next - 1 < |cfg.prices| then cfg.prices[next - 1] else Some(0.0);
                     if price.None? || price.value < 0.0 then BadPriceConfig
                     else if old(balance).None? then UserNotFound
                     else if old(balance).value < price.value then InsufficientBalance
                     else RoomBought(next)
      ensures r.RoomBought? ==>
                r.roomNumber == |rooms| && Now() == WithRoom(cfg, old(Now()), PriceOf(cfg, r.roomNumber))
      ensures r.RoomBought? ==> rooms == old(rooms) + [Room(r.roomNumber, PriceOf(cfg, r.roomNumber))]
      ensures r.RoomBought? ==> balance == Some(old(balance).value - PriceOf(cfg, r.roomNumber))
      ensures !r.RoomBought? ==> Now() == old(Now())
    {
      hide Good, OwnedSpecs, NewRacks;
      var nextRoom := |rooms| + 1;
      if nextRoom > cfg.roomMax {
        return MaxRoomsReached;
      }
      var price := if nextRoom - 1 < |cfg.prices| then cfg.prices[nextRoom - 1] else Some(0.0);
      if price.None? || price.value < 0.0 {
        return BadPriceConfig;
      }
      if balance.None? {
        return UserNotFound;
      }
      if balance.value < price.value {
        return InsufficientBalance;
      }
      WithRoomKeeps(cfg, Now(), price.value);
      if price.value > 0.0 {
        balance := Some(balance.value - price.value);
      }
      rooms := rooms + [Room(nextRoom, price.value)];
      racks := racks + NewRacks(cfg, nextRoom);
      r := RoomBought(nextRoom);
    }

    /** installMiner. An id that is not a positive integer arrives as None; the rack id names its place. */
    method InstallMiner(rack: Option<Place>, inventoryId: Option<nat>, now: int) returns (r: InstallResult)
      requires Good(cfg, Now())
      modifies this
      ensures Good(cfg, Now()) && OwnedSpecs(Now()) == old(OwnedSpecs(Now()))
      ensures Funds(cfg, Now()) == old(Funds(cfg, Now()))
      ensures r == if rack.None? || inventoryId.None? then InvalidId
                   else if rack.value !in old(racks) then RackNotFound
                   else if !Free(old(racks)[rack.value]) then RackOccupied
                   else
                     var item := FindItem(old(inventory), inventoryId.value);
                     if item.None? then ItemNotFound
                     else if Accepts(old(racks), rack.value, item.value.spec) then Installed
                     else if EndOf(rack.value, item.value.spec) !in old(racks) then NoSpace else AdjacentOccupied
      ensures r == Installed ==>
                Accepts(old(racks), rack.value, FindItem(old(inventory), inventoryId.value).value.spec)
      ensures r == Installed ==>
                Now() == WithMiner(cfg, old(Now()), rack.value, FindItem(old(inventory), inventoryId.value).value, now)
      ensures r == Installed ==>
                var rack, kept := racks[rack.value], old(racks)[rack.value];
                rack.userMinerId == Some(old(nextMinerId)) && rack.installedAt == Some(now) && kept.userMinerId.None?
      ensures r != Installed ==> Now() == old(Now())
    {
      hide Good, OwnedSpecs;
      if rack.None? || inventoryId.None? {
        return InvalidId;
      }
      var p := rack.value;
      if p !in racks {
        return RackNotFound;
      }
      if racks[p].userMinerId.Some? || racks[p].blockedByMinerId.Some? {
        return RackOccupied;
      }
      var found := FindItem(inventory, inventoryId.value);
      if found.None? {
        return ItemNotFound;
      }
      var item := found.value;
      var slotSize := if item.spec.slotSize == 0 then 1 else item.spec.slotSize;
      if slotSize >= 2 {
        var adjacent := Place(p.room, p.position + (slotSize - 1));
        if adjacent !in racks {
          return NoSpace;
        }
        if racks[adjacent].userMinerId.Some? || racks[adjacent].blockedByMinerId.Some? {
          return AdjacentOccupied;
        }
      }
      WithMinerKeeps(cfg, Now(), p, item, now);
      var id := nextMinerId;
      miners := miners + [Machine(id, RackSlotIndex(cfg, p), item.spec)];
      nextMinerId := id + 1;
      racks := racks[p := racks[p].(userMinerId := Some(id), installedAt := Some(now))];
      if slotSize >= 2 {
        var adjacent := Place(p.room, p.position + (slotSize - 1));
        racks := racks[adjacent := racks[adjacent].(blockedByMinerId := Some(id))];
      }
      inventory := DeleteItem(inventory, inventoryId.value);
      r := Installed;
    }

    /** uninstallMiner */
    method UninstallMiner(rack: Option<Place>) returns (r: UninstallResult)
      requires Good(cfg, Now())
      modifies this
      ensures Good(cfg, Now()) && OwnedSpecs(Now()) == old(OwnedSpecs(Now()))
      ensures Funds(cfg, Now()) == old(Funds(cfg, Now()))
      ensures r == if rack.None? then InvalidRackId
                   else if rack.value !in old(racks) then NoSuchRack
                   else if old(racks)[rack.value].userMinerId.None? then RackEmpty else Uninstalled
      ensures r == Uninstalled ==> FindMachine(old(miners), old(racks)[rack.value].userMinerId.value).Some?
      ensures r == Uninstalled ==>
                Now()
                  == WithoutMiner(old(Now()), rack.value,
                                  FindMachine(old(miners), old(racks)[rack.value].userMinerId.value).value)
      ensures r != Uninstalled ==> Now() == old(Now())
    {
      hide Good, OwnedSpecs;
      if rack.None? {
        return InvalidRackId;
      }
      var p := rack.value;
      if p !in racks {
        return NoSuchRack;
      }
      if racks[p].userMinerId.None? {
        return RackEmpty;
      }
      HostedIsKnown(cfg, Now(), p);
      var miner := FindMachine(miners, racks[p].userMinerId.value).value;
      WithoutMinerKeeps(cfg, Now(), p, miner);
      racks := racks[p := racks[p].(userMinerId := None, installedAt := None)];
      racks := map q | q in racks :: if q.room == p.room then Released(racks[q], miner.id) else racks[q];
      inventory := inventory + [Item(nextItemId, miner.spec)];
      nextItemId := nextItemId + 1;
      miners := Delete(miners, miner.id);
      assert racks == WithoutMiner(old(Now()), p, miner).racks;
      r := Uninstalled;
    }

    /** Any sequence of requests, whatever they are answered. */
    method Serve(requests: seq<RoomRequest>)
      requires Good(cfg, Now())
      modifies this
      ensures Good(cfg, Now()) && OwnedSpecs(Now()) == old(OwnedSpecs(Now())) + RoomArrivals(requests)
      ensures Funds(cfg, Now()) == old(Funds(cfg, Now()))
    {
      hide Good, OwnedSpecs, Funds, WithMiner, WithoutMiner, WithRoom, WithItem, Accepts, Free, PriceOf;
      for i := 0 to |requests|
        invariant Good(cfg, Now()) && OwnedSpecs(Now()) == old(OwnedSpecs(Now())) + RoomArrivals(requests[..i])
        invariant Funds(cfg, Now()) == old(Funds(cfg, Now()))
      {
        assert requests[..i + 1][..i] == requests[..i];
        match requests[i] {
          case BuyRequest => var _ := BuyRoom();
          case InstallRequest(rack, inventoryId, now) => var _ := InstallMiner(rack, inventoryId, now);
          case UninstallRequest(rack) => var _ := UninstallMiner(rack);
          case ReceiveRequest(spec) => Receive(spec);
        }
      }
      assert requests[..|requests|] == requests;
    }
  }

  /** Every reachable state: from a user without rooms on, whatever is requested, the invariant holds and
      the user owns exactly what has arrived. */
  method ServeFromStart(cfg: Config, balance: Option<real>, requests: seq<RoomRequest>) returns (store: RoomStore)
    ensures fresh(store) && store.cfg == cfg && Good(cfg, store.Now())
    ensures OwnedSpecs(store.Now()) == RoomArrivals(requests)
    ensures balance.None? ==> store.balance.None?
    ensures balance.Some? ==>
              store.balance.Some? && store.balance.value + PricesOf(cfg, |store.rooms|) == balance.value
  {
    store := new RoomStore(cfg, balance);
    store.Serve(requests);
  }

  datatype RoomRequest = BuyRequest
                       | InstallRequest(rack: Option<Place>, inventoryId: Option<nat>, now: int)
                       | UninstallRequest(rack: Option<Place>)
                       | ReceiveRequest(spec: Spec)

  /** All that arrives during some requests. */
  ghost function RoomArrivals(requests: seq<RoomRequest>): multiset<Spec> {
    if requests == [] then multiset{}
    else
      var last := requests[|requests| - 1];
      RoomArrivals(requests[..|requests| - 1]) + (if last.ReceiveRequest? then multiset{last.spec} else multiset{})
  }

  function WithItem(s: State, spec: Spec): State {
    s.(inventory := s.inventory + [Item(s.nextItemId, spec)], nextItemId := s.nextItemId + 1)
  }

  lemma WithItemKeeps(cfg: Config, s: State, spec: Spec)
    requires Good(cfg, s)
    ensures Good(cfg, WithItem(s, spec)) && OwnedSpecs(WithItem(s, spec)) == OwnedSpecs(s) + multiset{spec}
  {
    hide RoomsOk, HostedOk, OneHost, DatesOk, BlocksOk, NotBoth, MachineSpecs, ItemSpecs, DistinctItems;
    ItemSpecsAppend(s.inventory, Item(s.nextItemId, spec));
    NewItemIsDistinct(s.inventory, Item(s.nextItemId, spec));
  }

  lemma HostedIsKnown(cfg: Config, s: State, p: Place)
    requires Good(cfg, s) && p in s.racks && s.racks[p].userMinerId.Some?
    ensures FindMachine(s.miners, s.racks[p].userMinerId.value).Some?
    ensures Hosts(s.racks, p, s.racks[p].userMinerId.value)
  {
    assert Hosts(s.racks, p, s.racks[p].userMinerId.value);
  }
}
