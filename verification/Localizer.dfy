/**
 The frame localizer: symbolized frames become ids of localized names. Three
 names are predefined; the first of them is the name of the root. An address
 gets the root's id only through an inlined frame that has exactly that name.
 */
module Localizer {
  import opened Options
  import opened CallTree
  import opened Reader

  datatype Inlined = Inlined(name: string, location: string)
  datatype Symbolized = Symbolized(symbol: string, library: string, inlined: seq<Inlined>)
  datatype Name = Name(name: string, location: string, library: string)
  datatype Range = Range(start: nat, end: nat)

  const ROOT_NAME := Name("root", "", "")
  const PREDEFINED := [ROOT_NAME, Name("memhawk", "", ""), Name("unknown", "", "")]

  // What is taken for an address that cannot be symbolized
  const UNKNOWN_SYMBOL := Symbolized("unknown", "unknown", [])

  // The names of a frame: the symbol itself, or all that was inlined there
  function NamesOf(frame: Symbolized): (r: seq<Name>)
    ensures |r| == if frame.inlined == [] then 1 else |frame.inlined|
  {
    if frame.inlined == [] then [Name(frame.symbol, "?", frame.library)]
    else
      seq(|frame.inlined|, i requires 0 <= i < |frame.inlined| =>
        Name(frame.inlined[i].name, frame.inlined[i].location, frame.library))
  }

  // `known` lists the names by id
  ghost predicate Numbered(names: map<Name, Frame>, known: seq<Name>) {
    && (forall n :: n in names ==> names[n] < |known| && known[names[n]] == n)
    && (forall i :: 0 <= i < |known| ==> known[i] in names && names[known[i]] == i)
  }

  ghost function Learn(known: seq<Name>, name: Name): (r: seq<Name>)
    ensures name in r && known <= r
  {
    if name in known then known else known + [name]
  }

  ghost function LearnAll(known: seq<Name>, names: seq<Name>): (r: seq<Name>)
    ensures known <= r
  {
    if names == [] then known else Learn(LearnAll(known, names[..|names| - 1]), names[|names| - 1])
  }

  // The ids stand for the names
  ghost predicate Spells(known: seq<Name>, ids: seq<Frame>, names: seq<Name>) {
    |ids| == |names| && forall i :: 0 <= i < |ids| ==> ids[i] < |known| && known[ids[i]] == names[i]
  }

  function Slice(frames: seq<Frame>, range: Range): (r: seq<Frame>) {
    if range.start <= range.end <= |frames| then frames[range.start..range.end] else []
  }

  // The ids of the range stand for the names of the frame
  ghost predicate RangeOk(known: seq<Name>, frames: seq<Frame>, range: Range, frame: Symbolized) {
    range.start <= range.end <= |frames| && Spells(known, Slice(frames, range), NamesOf(frame))
  }

  lemma RangeKept(known: seq<Name>, frames: seq<Frame>, range: Range, frame: Symbolized, known': seq<Name>,
                  frames': seq<Frame>)
    requires RangeOk(known, frames, range, frame) && known <= known' && frames <= frames'
    ensures RangeOk(known', frames', range, frame)
    ensures Slice(frames', range) == Slice(frames, range)
  {
    var a, b := Slice(frames, range), Slice(frames', range);
    forall i | 0 <= i < |a| ensures b[i] == a[i] {
      assert frames'[range.start + i] == frames[range.start + i];
    }
  }

  lemma RangesKept(known: seq<Name>, frames: seq<Frame>, ranges: map<nat, Range>, seen: map<nat, Symbolized>,
                   known': seq<Name>, frames': seq<Frame>)
    requires ranges.Keys == seen.Keys && forall a :: a in ranges ==> RangeOk(known, frames, ranges[a], seen[a])
    requires known <= known' && frames <= frames'
    ensures forall a :: a in ranges ==>
      RangeOk(known', frames', ranges[a], seen[a]) && Slice(frames', ranges[a]) == Slice(frames, ranges[a])
  {
    forall a | a in ranges
      ensures RangeOk(known', frames', ranges[a], seen[a]) && Slice(frames', ranges[a]) == Slice(frames, ranges[a])
    {
      RangeKept(known, frames, ranges[a], seen[a], known', frames');
    }
  }

  lemma Appended(before: seq<Frame>, after: seq<Frame>, start: nat)
    requires start <= |before| && |after| == |before| + 1 && after[..|before|] == before
    ensures after[..start] == before[..start] && after[start..] == before[start..] + [after[|before|]]
  {
    assert after == before + [after[|before|]];
  }

  lemma LearnNext(known: seq<Name>, names: seq<Name>, i: nat)
    requires i < |names|
    ensures LearnAll(known, names[..i + 1]) == Learn(LearnAll(known, names[..i]), names[i])
  {
    assert names[..i + 1][..i] == names[..i];
  }

  lemma SpellsMore(known: seq<Name>, known': seq<Name>, ids: seq<Frame>, names: seq<Name>, i: nat, id: Frame)
    requires i < |names| && Spells(known, ids, names[..i]) && known <= known'
    requires id < |known'| && known'[id] == names[i]
    ensures Spells(known', ids + [id], names[..i + 1])
  {
  }

  // The name of a frame with nothing inlined has the location "?"
  lemma NoLocation(frame: Symbolized)
    ensures ROOT_NAME in NamesOf(frame) ==> frame.inlined != []
  {
    assert "?" != "";
  }

  class FrameLocalizer {
    var ranges: map<nat, Range>
    var frames: seq<Frame>
    var names: map<Name, Frame>
    var next: Frame

    // the names by id, and the frame last processed for each address
    ghost var known: seq<Name>
    ghost var seen: map<nat, Symbolized>

    ghost predicate Valid()
      reads this
    {
      && Numbered(names, known) && next == |known| && PREDEFINED <= known
      && ranges.Keys == seen.Keys
      && forall a :: a in ranges ==> RangeOk(known, frames, ranges[a], seen[a])
    }

    // The ids of an address; one that was never asked for has the unknown frame
    ghost function IdsOf(addr: nat): (r: seq<Frame>)
      requires Valid()
      reads this
    {
      if addr in ranges then Slice(frames, ranges[addr]) else [UNKNOWN_FRAME]
    }

    constructor ()
      ensures Valid() && known == PREDEFINED && ranges == map[] && frames == []
    {
      ranges, frames, seen := map[], [], map[];
      names := map[PREDEFINED[0] := ROOT_FRAME, PREDEFINED[1] := MEMHAWK_FRAME, PREDEFINED[2] := UNKNOWN_FRAME];
      next := UNKNOWN_FRAME + 1;
      known := PREDEFINED;
    }

    // Appends the id of a name, which is the next one if the name is new
    method AddNewLocalizedName(name: Name)
      requires Numbered(names, known) && next == |known|
      modifies this`names, this`next, this`frames, this`known
      ensures Numbered(names, known) && next == |known| && known == Learn(old(known), name)
      ensures |frames| == |old(frames)| + 1 && frames[..|old(frames)|] == old(frames)
      ensures frames[|old(frames)|] < |known| && known[frames[|old(frames)|]] == name
    {
      if name !in names {
        assert name !in known;
        names := names[name := next];
        known := known + [name];
        next := next + 1;
      }
      frames := frames + [names[name]];
    }

    // Appends the ids of the names
    method AppendNames(list: seq<Name>)
      requires Numbered(names, known) && next == |known|
      modifies this`names, this`next, this`frames, this`known
      ensures Numbered(names, known) && next == |known| && known == LearnAll(old(known), list)
      ensures |frames| == |old(frames)| + |list| && frames[..|old(frames)|] == old(frames)
      ensures Spells(known, frames[|old(frames)|..], list)
    {
      ghost var start := |frames|;
      for i := 0 to |list|
        invariant Numbered(names, known) && next == |known| && known == LearnAll(old(known), list[..i])
        invariant |frames| == start + i && frames[..start] == old(frames)
        invariant Spells(known, frames[start..], list[..i])
      {
        ghost var before, was := frames, known;
        LearnNext(old(known), list, i);
        AddNewLocalizedName(list[i]);
        Appended(before, frames, start);
        SpellsMore(was, known, before[start..], list, i, frames[start + i]);
      }
      assert list[..|list|] == list;
    }

    // Afterwards the address has the ids of the frame's names, and every other address what it had
    method ProcessSymbolizedFrame(addr: nat, frame: Symbolized) returns (range: Range)
      requires Valid()
      modifies this
      ensures Valid() && ranges == old(ranges)[addr := range] && seen == old(seen)[addr := frame]
      ensures old(frames) <= frames && known == LearnAll(old(known), NamesOf(frame))
      ensures forall a :: a != addr ==> IdsOf(a) == old(IdsOf(a))
    {
      var start := |frames|;
      AppendNames(NamesOf(frame));
      range := Range(start, |frames|);
      assert frames[start..|frames|] == frames[start..];
      RangesKept(old(known), old(frames), ranges, seen, known, frames);
      ranges, seen := ranges[addr := range], seen[addr := frame];
    }

    // A known address keeps its range; a new one is looked up
    method GetLocalizedRange(addr: nat, lookup: nat -> Option<Symbolized>) returns (range: Range)
      requires Valid()
      modifies this
      ensures Valid() && addr in ranges && range == ranges[addr]
      ensures addr in old(ranges) ==> unchanged(this)
      ensures addr !in old(ranges) ==>
        seen == old(seen)[addr := if lookup(addr).Some? then lookup(addr).value else UNKNOWN_SYMBOL]
      ensures forall a :: a in old(ranges) ==> a in ranges && IdsOf(a) == old(IdsOf(a))
    {
      if addr in ranges {
        return ranges[addr];
      }
      var found := lookup(addr);
      var frame := if found.Some? then found.value else UNKNOWN_SYMBOL;
      range := ProcessSymbolizedFrame(addr, frame);
    }

    // Two addresses share an id exactly where they share a name
    lemma SameIdIff(a: nat, i: nat, b: nat, j: nat)
      requires Valid() && a in ranges && b in ranges && i < |NamesOf(seen[a])| && j < |NamesOf(seen[b])|
      ensures |IdsOf(a)| == |NamesOf(seen[a])| && |IdsOf(b)| == |NamesOf(seen[b])|
      ensures IdsOf(a)[i] == IdsOf(b)[j] <==> NamesOf(seen[a])[i] == NamesOf(seen[b])[j]
    {
      assert RangeOk(known, frames, ranges[a], seen[a]) && RangeOk(known, frames, ranges[b], seen[b]);
      assert IdsOf(a)[i] < |known| && IdsOf(b)[j] < |known|;
    }

    // In terms of the frames: two inlined frames, or two symbols, share an id exactly when they and their
    // libraries are the same; a symbol counts as an inlined frame at an unknown location
    lemma SameFrameIff(a: nat, i: nat, b: nat, j: nat)
      requires Valid() && a in ranges && b in ranges && i < |IdsOf(a)| && j < |IdsOf(b)|
      ensures |IdsOf(a)| == if seen[a].inlined == [] then 1 else |seen[a].inlined|
      ensures |IdsOf(b)| == if seen[b].inlined == [] then 1 else |seen[b].inlined|
      ensures seen[a].inlined != [] && seen[b].inlined != [] ==>
        (IdsOf(a)[i] == IdsOf(b)[j] <==>
         seen[a].library == seen[b].library && seen[a].inlined[i] == seen[b].inlined[j])
      ensures seen[a].inlined == [] && seen[b].inlined == [] ==>
        (IdsOf(a)[i] == IdsOf(b)[j] <==> seen[a].library == seen[b].library && seen[a].symbol == seen[b].symbol)
      ensures seen[a].inlined == [] && seen[b].inlined != [] ==>
        (IdsOf(a)[i] == IdsOf(b)[j] <==>
         seen[a].library == seen[b].library && Inlined(seen[a].symbol, "?") == seen[b].inlined[j])
    {
      assert RangeOk(known, frames, ranges[a], seen[a]) && RangeOk(known, frames, ranges[b], seen[b]);
      SameIdIff(a, i, b, j);
    }

    // An address has the root's id exactly when its library name is empty and a frame without a location
    // named "root" was inlined there
    lemma RootIdIff(a: nat)
      requires Valid() && a in ranges
      ensures ROOT_FRAME in IdsOf(a) <==> seen[a].library == "" && Inlined("root", "") in seen[a].inlined
    {
      assert RangeOk(known, frames, ranges[a], seen[a]);
      var ids, list := IdsOf(a), NamesOf(seen[a]);
      assert known[ROOT_FRAME] == PREDEFINED[ROOT_FRAME] == ROOT_NAME;
      if ROOT_FRAME in ids {
        var i :| 0 <= i < |ids| && ids[i] == ROOT_FRAME;
        assert list[i] == ROOT_NAME;
        NoLocation(seen[a]);
        assert seen[a].inlined[i] == Inlined("root", "");
      }
      if seen[a].library == "" && Inlined("root", "") in seen[a].inlined {
        var i :| 0 <= i < |seen[a].inlined| && seen[a].inlined[i] == Inlined("root", "");
        assert list[i] == ROOT_NAME;
        assert ids[i] < |known| && known[ids[i]] == ROOT_NAME;
      }
    }

    // Symbolization avoids the root's id exactly when no frame seen so far is of that kind
    lemma RootlessIff(sym: nat -> seq<Frame>)
      requires Valid() && forall a :: sym(a) == IdsOf(a)
      ensures Rootless(sym)
        <==> forall a :: a in seen ==> !(seen[a].library == "" && Inlined("root", "") in seen[a].inlined)
    {
      forall a: nat
        ensures ROOT_FRAME in sym(a) <==> a in seen && seen[a].library == "" && Inlined("root", "") in seen[a].inlined
      {
        assert sym(a) == IdsOf(a);
        if a in ranges {
          RootIdIff(a);
        }
      }
    }
  }
}
