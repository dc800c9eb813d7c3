/** The loader as the kernel runs it, over the two capability spaces it updates in place. */
module LoaderObject {
  import opened Caps
  import opened CSpaceSpec
  import opened CSpaceObject
  import opened LoaderSpec
  import opened Options
  import LittleEndian
  import Pex
  import opened SpaceMap

  /** A load in progress: the loader's and the process's space and the loader's own variables. */
  class Loading {
    const loader: CSpace
    const proc: CSpace
    var scratch: nat
    var frames: seq<nat>
    var effects: seq<Effect>
    var budget: nat

    ghost predicate Valid()
      reads this, loader, loader.slots, proc, proc.slots
    {
      loader != proc && loader.slots != proc.slots && loader.Valid() && proc.Valid()
    }

    ghost function View(): (l: Load)
      reads this, loader, loader.slots, proc, proc.slots
    {
      Load(loader.View(), proc.View(), scratch, frames, effects, budget)
    }

    constructor (l: CSpace, p: CSpace, s: nat)
      requires l != p && l.slots != p.slots && l.Valid() && p.Valid()
      ensures Valid() && loader == l && proc == p && View() == Load(l.View(), p.View(), s, [], [], 0)
    {
      loader, proc, scratch, frames, effects, budget := l, p, s, [], [], 0;
    }

    /** The call did what the specification does: its error if any, and its state either way. */
    ghost predicate Agrees(e: Option<LoadError>, spec: Outcome)
      reads this, loader, loader.slots, proc, proc.slots
    {
      View() == spec.load && e == if spec.Done? then None else Some(spec.error)
    }

    method Segment(s: Pex.Segment, data: seq<LittleEndian.byte>) returns (e: Option<LoadError>)
      requires Valid()
      modifies this, loader.slots, loader`zeroed
      ensures Valid() && Agrees(e, LoadSegment(s, data, old(View())))
    {
      hide CSpaceSpec.Retype;
      hide NewCalls;
      hide Zeros;
      var end := s.vaddr + s.memSize;
      if end >= LittleEndian.U64_LIMIT || s.vaddr < PROC_VA_BASE || end > PROC_VA_END {
        return Some(SegmentVaddrOutOfRange);
      }
      var pages := s.memSize / PAGE;
      if pages >= U32_LIMIT {
        return Some(BadPex(Pex.SegmentTooLarge));
      }
      var slot := scratch;
      scratch := scratch + 1;
      ghost var before := loader.View();
      var log := loader.zeroed;
      var r := loader.Retype(L_UNTYPED, Frame, pages, 1, slot);
      if r.Err? {
        return Some(Cap(r.error));
      }
      RetypedSlot(before, pages, slot);
      var c := loader.Lookup(slot);
      var pfn := c.value.objref % U32_LIMIT;
      effects := effects + Zeros(NewCalls(log, loader.zeroed)) + [CopyTo(pfn, pages, data)];
      MapPages(s.vaddr, pfn, PermToProt(s.perm), pages);
      frames := frames + [slot];
      return None;
    }

    method MapPages(va: nat, pfn: nat, prot: Prot, pages: nat)
      modifies this`effects
      ensures effects == old(effects) + Maps(va, pfn, prot, pages)
    {
      for k := 0 to pages
        invariant effects == old(effects) + Maps(va, pfn, prot, pages)[..k]
      {
        effects := effects + [MapAt(va + k * PAGE, pfn + k, prot)];
      }
    }

    method Entry(m: Pex.ManifestEntry) returns (e: Option<LoadError>)
      requires Valid()
      modifies this, loader.slots, loader`nextObj, proc.slots
      ensures Valid() && Agrees(e, LoadEntry(m, old(View())))
    {
      hide RightsFromBits;
      if m.destSlot >= PROCESS_SLOTS {
        return Some(DestSlotOutOfRange);
      }
      var rights := RightsFromBits(m.rights);
      if rights.None? {
        return Some(BadRights);
      }
      if m.capType == Pex.MANIFEST_SCHED {
        e := SchedEntry(m, rights.value);
      } else if m.capType == Pex.MANIFEST_ENDPOINT {
        e := GrantEntry(L_ENDPOINT, m, rights.value, m.param0);
      } else if m.capType == Pex.MANIFEST_FRAME {
        if m.param0 >= |frames| {
          return Some(BadSegmentRef);
        }
        e := GrantEntry(frames[m.param0], m, rights.value, 0);
      } else {
        e := Some(UnknownManifestType(m.capType));
      }
    }

    method SchedEntry(m: Pex.ManifestEntry, rights: Rights) returns (e: Option<LoadError>)
      requires Valid()
      modifies this, loader.slots, loader`nextObj, proc.slots
      ensures Valid() && Agrees(e, LoadSched(m, rights, old(View())))
    {
      hide SplitSched;
      hide Grant;
      var child := scratch;
      scratch := scratch + 1;
      var s := loader.Split(L_SCHED, child, m.param0 % U32_LIMIT);
      if s.Err? {
        return Some(Cap(s.error));
      }
      var g := GrantTo(loader, child, proc, m.destSlot, rights, 0, MoveGrant);
      if g.Err? {
        return Some(Cap(g.error));
      }
      budget := m.param0 % U32_LIMIT;
      return None;
    }

    method GrantEntry(src: nat, m: Pex.ManifestEntry, rights: Rights, badge: nat) returns (e: Option<LoadError>)
      requires Valid()
      modifies loader.slots, proc.slots
      ensures Valid() && Agrees(e, Granted(src, m, rights, badge, old(View())))
    {
      hide Grant;
      var g := GrantTo(loader, src, proc, m.destSlot, rights, badge, MintGrant);
      e := if g.Err? then Some(Cap(g.error)) else None;
    }

    /** Loads a whole image. */
    method LoadAll(bytes: seq<LittleEndian.byte>, arch: nat) returns (e: Option<LoadError>)
      requires Valid() && frames == [] && effects == [] && budget == 0
      modifies this, loader.slots, loader`zeroed, loader`nextObj, proc.slots
      ensures Valid() && Agrees(e, LoadImage(bytes, arch, old(loader.View()), old(proc.View()), old(scratch)))
    {
      hide LoadSegment;
      hide LoadEntry;
      hide Pex.Parse;
      var p := Pex.ParseImage(bytes, arch);
      if p.Err? {
        return Some(BadPex(p.error));
      }
      var img := p.value;
      ghost var l := View();
      for i := 0 to img.h.segCount
        invariant Valid() && LoadSegments(img, View(), i) == LoadSegments(img, l, 0)
      {
        e := Segment(SegmentOf(img, i), DataOf(img, i));
        if e.Some? {
          return e;
        }
      }
      ghost var mid := View();
      for i := 0 to img.h.manCount
        invariant Valid() && LoadManifest(img, View(), i) == LoadManifest(img, mid, 0)
      {
        e := Entry(EntryOf(img, i));
        if e.Some? {
          return e;
        }
      }
      return None;
    }
  }

  lemma RetypedSlot(cs: CS, pages: nat, slot: nat)
    requires Retype(cs, L_UNTYPED, Frame, pages, 1, slot).Ok?
    ensures Live(Retype(cs, L_UNTYPED, Frame, pages, 1, slot).value.slots, slot)
  {
  }
}
