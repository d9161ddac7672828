/** The messages that the profiled process writes and the symbolizer reads. */
module Snapshots {
  import opened Options

  datatype PtrEntry = PtrEntry(addr: nat, id: nat)
  datatype Stack = Stack(traceId: nat, ptrIds: seq<nat>)
  datatype Changed<T> = Changed(traceId: nat, actual: Option<T>)

  datatype Snapshot<T> = Snapshot(
    timestamp: nat, total: T, stacks: seq<Stack>, ptrs: seq<PtrEntry>, changed: seq<Changed<T>>)
}

/**
 The protobuf writer: it accumulates the drained summaries per trace and
 flushes the cumulative values of the traces that changed.
 */
module Writer {
  import opened Options
  import opened Groups
  import opened Tallies
  import opened Snapshots

  // Return addresses are written as the address before them, as 64-bit numbers
  function Addr(ptr: nat): (r: nat)
    ensures ptr < 0x1_0000_0000_0000_0000 ==> r == (ptr - 1) % 0x1_0000_0000_0000_0000
  {
    if ptr == 0 then 0xFFFF_FFFF_FFFF_FFFF else ptr - 1
  }

  // Ids are handed out from 0 without gaps, one per address: `table` lists the addresses by id
  ghost predicate Numbered(ptrMap: map<nat, nat>, table: seq<nat>) {
    && |ptrMap| == |table|
    && forall a :: a in ptrMap ==> ptrMap[a] < |table| && table[ptrMap[a]] == a
  }

  // The table grew by exactly the new entries
  ghost predicate GrewBy(before: seq<nat>, after: seq<nat>, news: seq<PtrEntry>) {
    && |after| == |before| + |news|
    && after[..|before|] == before
    && forall i :: 0 <= i < |news| ==> news[i] == PtrEntry(after[|before| + i], |before| + i)
  }

  ghost predicate SpellsPart(table: seq<nat>, ids: seq<nat>, trace: seq<nat>) {
    && |ids| <= |trace|
    && forall i :: 0 <= i < |ids| ==> ids[i] < |table| && table[ids[i]] == Addr(trace[i])
  }

  // The ids stand for the addresses of a trace
  ghost predicate Spells(table: seq<nat>, ids: seq<nat>, trace: seq<nat>) {
    |ids| == |trace| && SpellsPart(table, ids, trace)
  }

  lemma GrewByMore(a: seq<nat>, b: seq<nat>, c: seq<nat>, news: seq<PtrEntry>, more: seq<PtrEntry>)
    requires GrewBy(a, b, news) && GrewBy(b, c, more)
    ensures GrewBy(a, c, news + more)
  {
    assert c[..|a|] == c[..|b|][..|a|];
    forall i | 0 <= i < |news| ensures news[i] == PtrEntry(c[|a| + i], |a| + i) {
      assert c[..|b|][|a| + i] == c[|a| + i];
    }
  }

  // The flushed list has every changed trace once, with its cumulative value
  ghost predicate Flushed<T>(local: map<nat, T>, changed: set<nat>, list: seq<Changed<T>>) {
    && (forall c :: c in list ==> c.traceId in changed && c.traceId in local && c.actual == Some(local[c.traceId]))
    && (forall t :: t in changed && t in local ==> Changed(t, Some(local[t])) in list)
    && (forall i, j :: 0 <= i < j < |list| ==> list[i].traceId != list[j].traceId)
  }

  // While a tally is being added: the entries in `left` are still to come
  ghost predicate Accounted<T(!new)>(g: Group<T>, before: map<nat, T>, summaries: map<nat, T>, left: map<nat, T>,
                                     now: map<nat, T>) {
    && left.Keys <= summaries.Keys
    && (forall i :: i in left ==> left[i] == summaries[i])
    && (forall i {:trigger Get(g, now, i)} ::
          Get(g, now, i) == g.add(Get(g, before, i), if i in left then g.zero else Get(g, summaries, i)))
    && now.Keys == before.Keys + (summaries.Keys - left.Keys)
  }

  lemma AccountNone<T(!new)>(g: Group<T>, local: map<nat, T>, summaries: map<nat, T>)
    requires Lawful(g)
    ensures Accounted(g, local, summaries, summaries, local)
  {
    forall i ensures Get(g, local, i) == g.add(Get(g, local, i), g.zero) {
      Zero(g, Get(g, local, i));
    }
  }

  lemma AccountOne<T(!new)>(g: Group<T>, before: map<nat, T>, summaries: map<nat, T>, left: map<nat, T>, now: map<nat,
                            T>, id: nat)
    requires Lawful(g) && Accounted(g, before, summaries, left, now) && id in left
    ensures Accounted(g, before, summaries, left - {id}, Put(g, now, id, left[id]))
  {
    var next := Put(g, now, id, left[id]);
    PutAdds(g, now, id, left[id]);
    Zero(g, Get(g, before, id));
    forall i
      ensures Get(g, next, i) == g.add(Get(g, before, i), if i in left - {id} then g.zero else Get(g, summaries, i))
    {
      assert Get(g, now, i) == g.add(Get(g, before, i), if i in left then g.zero else Get(g, summaries, i));
    }
  }

  lemma KeysDone(before: set<nat>, all: set<nat>, left: set<nat>, id: nat)
    requires id in left && left <= all
    ensures before + (all - left) + {id} == before + (all - (left - {id}))
  {
  }

  lemma DoneSets(done: set<nat>, t: nat, skip: set<nat>)
    ensures (done + {t}) - skip == if t in skip then done - skip else (done - skip) + {t}
    ensures skip + (done + {t}) == if t in skip then skip + done else skip + done + {t}
  {
  }

  lemma LeftAfter(all: set<nat>, left: set<nat>, t: nat)
    requires t in left && left <= all
    ensures all - (left - {t}) == (all - left) + {t}
  {
  }

  lemma NumberNext(ptrMap: map<nat, nat>, table: seq<nat>, addr: nat)
    requires Numbered(ptrMap, table) && addr !in ptrMap
    ensures Numbered(ptrMap[addr := |ptrMap|], table + [addr])
  {
    var next := ptrMap[addr := |ptrMap|];
    assert next.Keys == ptrMap.Keys + {addr};
    assert |next.Keys| == |ptrMap.Keys| + 1;
  }

  lemma SpellsGrows(before: seq<nat>, after: seq<nat>, news: seq<PtrEntry>, ids: seq<nat>, trace: seq<nat>)
    requires SpellsPart(before, ids, trace) && GrewBy(before, after, news)
    ensures SpellsPart(after, ids, trace)
  {
    forall i | 0 <= i < |ids| ensures ids[i] < |after| && after[ids[i]] == Addr(trace[i]) {
      assert after[..|before|][ids[i]] == after[ids[i]];
    }
  }

  ghost predicate StackOk(find: nat -> Option<seq<nat>>, table: seq<nat>, done: set<nat>, s: Stack) {
    s.traceId in done && find(s.traceId).Some? && Spells(table, s.ptrIds, find(s.traceId).value)
  }

  ghost predicate HasStack(stacks: seq<Stack>, t: nat) {
    exists s :: s in stacks && s.traceId == t
  }

  // Exactly the findable traces among `done` have a stack, which spells the trace
  ghost predicate Stacked(find: nat -> Option<seq<nat>>, table: seq<nat>, done: set<nat>, stacks: seq<Stack>) {
    && (forall s :: s in stacks ==> StackOk(find, table, done, s))
    && (forall t :: t in done && find(t).Some? ==> HasStack(stacks, t))
  }

  lemma StackAdded(find: nat -> Option<seq<nat>>, before: seq<nat>, after: seq<nat>, news: seq<PtrEntry>,
                   done: set<nat>, stacks: seq<Stack>, t: nat, ids: seq<nat>)
    requires Stacked(find, before, done, stacks) && GrewBy(before, after, news)
    requires find(t).Some? && Spells(after, ids, find(t).value)
    ensures Stacked(find, after, done + {t}, stacks + [Stack(t, ids)])
  {
    var more := stacks + [Stack(t, ids)];
    forall s | s in more ensures StackOk(find, after, done + {t}, s) {
      if s in stacks {
        assert StackOk(find, before, done, s);
        SpellsGrows(before, after, news, s.ptrIds, find(s.traceId).value);
      }
    }
    forall u | u in done + {t} && find(u).Some? ensures HasStack(more, u) {
      if u in done {
        assert HasStack(stacks, u);
        var s :| s in stacks && s.traceId == u;
        assert s in more;
      } else {
        assert Stack(t, ids) in more;
      }
    }
  }

  lemma FlushOne<T>(local: map<nat, T>, done: set<nat>, list: seq<Changed<T>>, t: nat)
    requires Flushed(local, done, list) && t in local && t !in done
    ensures Flushed(local, done + {t}, list + [Changed(t, Some(local[t]))])
  {
    forall i, j | 0 <= i < j < |list| + 1
      ensures (list + [Changed(t, Some(local[t]))])[i].traceId != (list + [Changed(t, Some(local[t]))])[j].traceId
    {
      if j == |list| {
        assert list[i] in list;
      }
    }
  }

  class ProtoWriter<T(!new)> {
    const g: Group<T>
    var total: T
    var local: map<nat, T>
    var changed: set<nat>
    var written: set<nat>
    var ptrMap: map<nat, nat>

    // the written addresses by id
    ghost var table: seq<nat>

    ghost predicate Valid()
      reads this
    {
      && Lawful(g)
      && changed <= local.Keys
      && Numbered(ptrMap, table)
    }

    constructor (group: Group<T>)
      requires Lawful(group)
      ensures Valid() && g == group
      ensures total == g.zero && local == map[] && changed == {} && written == {} && ptrMap == map[] && table == []
    {
      g := group;
      total := group.zero;
      local, changed, written, ptrMap := map[], {}, {}, map[];
      table := [];
    }

    // Adds a drained tally and its total to the cumulative values
    method AccountSnapshot(summaries: map<nat, T>, sum: T)
      requires Valid()
      modifies this`total, this`local, this`changed
      ensures Valid()
      ensures total == g.add(old(total), sum)
      ensures Merged(g, old(local), summaries, local)
      ensures local.Keys == old(local).Keys + summaries.Keys
      ensures changed == old(changed) + summaries.Keys
    {
      total := g.add(total, sum);
      var left := summaries;
      AccountNone(g, local, summaries);
      while left != map[]
        invariant Accounted(g, old(local), summaries, left, local)
        invariant total == g.add(old(total), sum)
        invariant changed == old(changed) + (summaries.Keys - left.Keys)
        decreases left.Keys
      {
        var id :| id in left.Keys;
        AccountOne(g, old(local), summaries, left, local, id);
        KeysDone(old(changed), summaries.Keys, left.Keys, id);
        changed := changed + {id};
        local := Put(g, local, id, left[id]);
        left := left - {id};
      }
    }

    // The id of an address, new if it was not written before
    method PtrId(addr: nat) returns (id: nat, news: seq<PtrEntry>)
      requires Numbered(ptrMap, table)
      modifies this`ptrMap, this`table
      ensures Numbered(ptrMap, table) && GrewBy(old(table), table, news)
      ensures id < |table| && table[id] == addr
      ensures addr in old(ptrMap) ==> id == old(ptrMap)[addr] && news == [] && ptrMap == old(ptrMap)
      ensures addr !in old(ptrMap) ==> id == |old(table)| && |news| == 1 && ptrMap == old(ptrMap)[addr := id]
    {
      news := [];
      if addr !in ptrMap {
        NumberNext(ptrMap, table, addr);
        news := [PtrEntry(addr, |ptrMap|)];
        ptrMap := ptrMap[addr := |ptrMap|];
        table := table + [addr];
      }
      id := ptrMap[addr];
    }

    // Adds the stack of a trace, with the addresses that were not written before
    method AddStacktrace(trace: seq<nat>) returns (ids: seq<nat>, news: seq<PtrEntry>)
      requires Valid()
      modifies this`ptrMap, this`table
      ensures Valid() && GrewBy(old(table), table, news) && Spells(table, ids, trace)
    {
      ids, news := [], [];
      for i := 0 to |trace|
        invariant Numbered(ptrMap, table) && GrewBy(old(table), table, news)
        invariant |ids| == i && SpellsPart(table, ids, trace)
      {
        ghost var before := table;
        var id, more := PtrId(Addr(trace[i]));
        GrewByMore(old(table), before, table, news, more);
        SpellsGrows(before, table, more, ids, trace);
        ids := ids + [id];
        news := news + more;
      }
    }

    // Writes the stack of a trace if it can be found
    method WriteStack(t: nat, find: nat -> Option<seq<nat>>, stacks0: seq<Stack>, ptrs0: seq<PtrEntry>,
                      ghost before: seq<nat>, ghost done: set<nat>)
      returns (stacks: seq<Stack>, ptrs: seq<PtrEntry>)
      requires Valid() && GrewBy(before, table, ptrs0) && Stacked(find, table, done, stacks0)
      modifies this`ptrMap, this`table
      ensures Valid() && GrewBy(before, table, ptrs) && Stacked(find, table, done + {t}, stacks)
    {
      stacks, ptrs := stacks0, ptrs0;
      var trace := find(t);
      if trace.Some? {
        ghost var middle := table;
        var ids, news := AddStacktrace(trace.value);
        GrewByMore(before, middle, table, ptrs, news);
        StackAdded(find, middle, table, news, done, stacks, t, ids);
        stacks := stacks + [Stack(t, ids)];
        ptrs := ptrs + news;
      }
    }

    // Writes the stack of a trace that was not written before; `skip` was written before this flush, `done` during it
    method WriteStackOnce(t: nat, find: nat -> Option<seq<nat>>, stacks0: seq<Stack>, ptrs0: seq<PtrEntry>,
                          ghost before: seq<nat>, ghost done: set<nat>, ghost skip: set<nat>)
      returns (stacks: seq<Stack>, ptrs: seq<PtrEntry>)
      requires Valid() && GrewBy(before, table, ptrs0) && Stacked(find, table, done - skip, stacks0)
      requires written == skip + done && t !in done
      modifies this`ptrMap, this`table, this`written
      ensures Valid() && GrewBy(before, table, ptrs) && Stacked(find, table, (done + {t}) - skip, stacks)
      ensures written == skip + (done + {t})
    {
      stacks, ptrs := stacks0, ptrs0;
      DoneSets(done, t, skip);
      if t !in written {
        stacks, ptrs := WriteStack(t, find, stacks, ptrs, before, done - skip);
        written := written + {t};
      }
    }

    // Writes the cumulative values of all changed traces, and the stacks of traces not written before
    method FlushData(timestamp: nat, find: nat -> Option<seq<nat>>) returns (snapshot: Snapshot<T>)
      requires Valid()
      modifies this`changed, this`written, this`ptrMap, this`table
      ensures Valid() && changed == {} && written == old(written) + old(changed)
      ensures snapshot.timestamp == timestamp && snapshot.total == total
      ensures Flushed(local, old(changed), snapshot.changed)
      ensures GrewBy(old(table), table, snapshot.ptrs)
      ensures Stacked(find, table, old(changed) - old(written), snapshot.stacks)
    {
      var list: seq<Changed<T>>, stacks: seq<Stack>, ptrs: seq<PtrEntry> := [], [], [];
      var left := changed;
      while left != {}
        invariant left <= changed == old(changed) && Valid()
        invariant Flushed(local, changed - left, list)
        invariant written == old(written) + (changed - left)
        invariant GrewBy(old(table), table, ptrs)
        invariant Stacked(find, table, (changed - left) - old(written), stacks)
        decreases left
      {
        var t :| t in left;
        ghost var done := changed - left;
        stacks, ptrs := WriteStackOnce(t, find, stacks, ptrs, old(table), done, old(written));
        FlushOne(local, done, list, t);
        LeftAfter(changed, left, t);
        list := list + [Changed(t, Some(local[t]))];
        left := left - {t};
      }
      assert changed - {} == changed;
      snapshot := Snapshot(timestamp, total, stacks, ptrs, list);
      changed := {};
    }
  }
}
