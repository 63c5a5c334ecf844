/**
 The name registry of cyber/common/global_data.cc: a name is hashed and probed linearly for
 a 64-bit id that is free or already its own.  The node, channel, service and task
 registries run the same code on maps of their own; a Registry is one of them.
 */
module Registry {

  const ID_COUNT: nat := 0x1_0000_0000_0000_0000

  type Id = x: int | 0 <= x < 0x1_0000_0000_0000_0000

  /** ++id on a uint64_t. */
  function Next(id: Id): Id {
    if id + 1 == ID_COUNT then 0 else id + 1
  }

  /** The k-th id that is probed. */
  function Probe(h: Id, k: nat): Id {
    if k == 0 then h else Next(Probe(h, k - 1))
  }

  /** How many ids are probed before `id`. */
  function Distance(h: Id, id: Id): nat {
    if id >= h then id - h else id - h + ID_COUNT
  }

  lemma {:induction false} ProbeAt(h: Id, k: nat)
    requires k < ID_COUNT
    ensures Probe(h, k) == if h + k < ID_COUNT then h + k else h + k - ID_COUNT
  {
    if k > 0 { ProbeAt(h, k - 1); }
  }

  /** Probing reaches every id, each at its own distance. */
  lemma ProbeDistance(h: Id, id: Id)
    ensures Distance(h, id) < ID_COUNT && Probe(h, Distance(h, id)) == id
    ensures forall k: nat | k < ID_COUNT && Probe(h, k) == id :: k == Distance(h, id)
  {
    ProbeAt(h, Distance(h, id));
    forall k: nat | k < ID_COUNT && Probe(h, k) == id ensures k == Distance(h, id) {
      ProbeAt(h, k);
    }
  }

  /** The loop goes on at this id. */
  predicate Taken(t: map<Id, string>, name: string, id: Id) {
    id in t && t[id] != name
  }

  /** The id at which the loop stops. */
  ghost predicate Lands(t: map<Id, string>, h: Id, name: string, id: Id) {
    && !Taken(t, name, id)
    && forall k: nat | k < Distance(h, id) :: Taken(t, name, Probe(h, k))
  }

  /** The loop ends if and only if some id is free or the name is registered. */
  lemma ProbingEndsIff(t: map<Id, string>, h: Id, name: string)
    ensures (exists id: Id :: Lands(t, h, name, id)) <==> (exists id: Id :: !Taken(t, name, id))
  {
    if x: Id :| !Taken(t, name, x) {
      ProbeDistance(h, x);
      var id := FirstStop(t, h, name, 0, Distance(h, x));
    }
  }

  lemma {:induction false} FirstStop(t: map<Id, string>, h: Id, name: string, k: nat, d: nat) returns (id: Id)
    requires k <= d < ID_COUNT && !Taken(t, name, Probe(h, d))
    requires forall j: nat | j < k :: Taken(t, name, Probe(h, j))
    ensures Lands(t, h, name, id)
    decreases d - k
  {
    if Taken(t, name, Probe(h, k)) {
      id := FirstStop(t, h, name, k + 1, d);
    } else {
      id := Probe(h, k);
      ProbeDistance(h, id);
    }
  }

  // ----- any sequence of registrations -----

  datatype Entry = Entry(name: string, id: Id)

  ghost predicate RegistersAt(hash: string -> Id, log: seq<Entry>, tables: seq<map<Id, string>>, i: nat) {
    && i < |log| && i + 1 < |tables|
    && Lands(tables[i], hash(log[i].name), log[i].name, log[i].id)
    && tables[i + 1] == tables[i][log[i].id := log[i].name]
  }

  /** What the registry has done so far: the names with the ids returned, and the table
      before and after each registration. */
  ghost predicate History(hash: string -> Id, log: seq<Entry>, tables: seq<map<Id, string>>) {
    && |tables| == |log| + 1 && tables[0] == map[]
    && forall i | 0 <= i < |log| :: RegistersAt(hash, log, tables, i)
  }

  /** Everything probed before a registered id is taken by another name. */
  ghost predicate Placed(hash: string -> Id, t: map<Id, string>) {
    forall id | id in t :: Lands(t, hash(t[id]), t[id], id)
  }

  lemma RegisterPlaced(hash: string -> Id, t: map<Id, string>, name: string, id: Id)
    requires Placed(hash, t) && Lands(t, hash(name), name, id)
    ensures Placed(hash, t[id := name])
  {
    var t' := t[id := name];
    forall x | x in t' ensures Lands(t', hash(t'[x]), t'[x], x) {
      if x != id {
        assert Lands(t, hash(t[x]), t[x], x);
        if t[x] == name { SameId(t, hash(name), name, x, id); }
        assert forall k: nat | k < Distance(hash(t[x]), x) :: Taken(t, t[x], Probe(hash(t[x]), k));
      } else {
        forall k: nat | k < Distance(hash(name), id) ensures Taken(t', name, Probe(hash(name), k)) {
          assert Taken(t, name, Probe(hash(name), k));
          ProbeDistance(hash(name), Probe(hash(name), k));
        }
      }
    }
  }

  /** The loop can stop at one id only. */
  lemma SameId(t: map<Id, string>, h: Id, name: string, x: Id, y: Id)
    requires Lands(t, h, name, x) && Lands(t, h, name, y)
    ensures x == y
  {
    ProbeDistance(h, x);
    ProbeDistance(h, y);
    assert Distance(h, x) < Distance(h, y) ==> Taken(t, name, Probe(h, Distance(h, x)));
    assert Distance(h, y) < Distance(h, x) ==> Taken(t, name, Probe(h, Distance(h, y)));
  }

  lemma {:induction false} HistoryPlaced(hash: string -> Id, log: seq<Entry>, tables: seq<map<Id, string>>, i: nat)
    requires History(hash, log, tables) && i < |tables|
    ensures Placed(hash, tables[i])
  {
    if i > 0 {
      HistoryPlaced(hash, log, tables, i - 1);
      assert RegistersAt(hash, log, tables, i - 1);
      RegisterPlaced(hash, tables[i - 1], log[i - 1].name, log[i - 1].id);
    }
  }

  /** A registered id keeps its name through all later registrations. */
  lemma {:induction false} NameStays(hash: string -> Id, log: seq<Entry>, tables: seq<map<Id, string>>, i: nat, m: nat)
    requires History(hash, log, tables) && i < m < |tables|
    ensures log[i].id in tables[m] && tables[m][log[i].id] == log[i].name
  {
    assert RegistersAt(hash, log, tables, m - 1);
    if i + 1 < m {
      NameStays(hash, log, tables, i, m - 1);
      HistoryPlaced(hash, log, tables, m - 1);
    }
  }

  /** For any hash function and any registrations: the same name always gets the same id and
      different names get different ids. */
  lemma SameIdIffSameName(hash: string -> Id, log: seq<Entry>, tables: seq<map<Id, string>>, i: nat, j: nat)
    requires History(hash, log, tables) && i <= j < |log|
    ensures log[i].id == log[j].id <==> log[i].name == log[j].name
  {
    if i < j {
      NameStays(hash, log, tables, i, j);
      HistoryPlaced(hash, log, tables, j);
      assert RegistersAt(hash, log, tables, j);
      if log[i].name == log[j].name {
        SameId(tables[j], hash(log[j].name), log[j].name, log[i].id, log[j].id);
      }
    }
  }

  /** Only registered names have ids. */
  lemma {:induction false} NothingElse(hash: string -> Id, log: seq<Entry>, tables: seq<map<Id, string>>, m: nat,
                                       id: Id) returns (i: nat)
    requires History(hash, log, tables) && m < |tables| && id in tables[m]
    ensures i < m && log[i] == Entry(tables[m][id], id)
  {
    assert RegistersAt(hash, log, tables, m - 1);
    if log[m - 1].id == id {
      i := m - 1;
    } else {
      i := NothingElse(hash, log, tables, m - 1, id);
    }
  }

  lemma HistoryGrows(hash: string -> Id, log: seq<Entry>, tables: seq<map<Id, string>>, name: string, id: Id)
    requires History(hash, log, tables) && Lands(tables[|log|], hash(name), name, id)
    ensures History(hash, log + [Entry(name, id)], tables + [tables[|log|][id := name]])
  {
    var log', tables' := log + [Entry(name, id)], tables + [tables[|log|][id := name]];
    forall i | 0 <= i < |log'| ensures RegistersAt(hash, log', tables', i) {
      if i < |log| { assert RegistersAt(hash, log, tables, i); }
    }
  }

  /** `log` lists all registrations and `tables` the table before and after each. */
  class Registry {
    const hash: string -> Id
    var table: map<Id, string>
    ghost var log: seq<Entry>
    ghost var tables: seq<map<Id, string>>

    ghost predicate Valid()
      reads this
    {
      History(hash, log, tables) && table == tables[|log|]
    }

    constructor (hash: string -> Id)
      ensures Valid() && this.hash == hash && log == []
    {
      this.hash := hash;
      table, log, tables := map[], [], [map[]];
    }

    /** Registers a name, given that the probing ends: some id is free or the name has one. */
    method Register(name: string) returns (id: Id)
      requires Valid() && exists x: Id :: !Taken(table, name, x)
      modifies this
      ensures Valid() && log == old(log) + [Entry(name, id)]
      ensures Lands(old(table), hash(name), name, id) && table == old(table)[id := name]
    {
      id := hash(name);
      ghost var h := id;
      ghost var stop: Id :| !Taken(table, name, stop);
      ProbeDistance(h, stop);
      ghost var k: nat := 0;
      while id in table
        modifies {}
        invariant k <= Distance(h, stop) && id == Probe(h, k)
        invariant forall j: nat | j < k :: Taken(table, name, Probe(h, j))
        decreases Distance(h, stop) - k
      {
        if table[id] == name {
          break;
        }
        id := Next(id);
        k := k + 1;
      }
      ProbeDistance(h, id);
      HistoryGrows(hash, log, tables, name, id);
      table := table[id := name];
      log, tables := log + [Entry(name, id)], tables + [table];
    }

    function GetById(id: Id): string
      reads this
    {
      if id in table then table[id] else ""
    }

    /** An id that was given to a name stands for it, whatever was registered since; an id
        never given stands for no name. */
    lemma LooksUp(id: Id)
      requires Valid()
      ensures forall i | 0 <= i < |log| && log[i].id == id :: GetById(id) == log[i].name
      ensures (forall i | 0 <= i < |log| :: log[i].id != id) ==> GetById(id) == ""
    {
      forall i | 0 <= i < |log| && log[i].id == id ensures GetById(id) == log[i].name {
        NameStays(hash, log, tables, i, |log|);
      }
      if id in table {
        var i := NothingElse(hash, log, tables, |log|, id);
      }
    }
  }
}
