/** Patching and restoring JAL call sites (mc3api/hooks.py). */
module HookManager {
  import opened Bits
  import opened EeMemory
  import opened EeBridge
  import opened OrderedDict
  import opened Options

  datatype HookError = AlreadyHooked | Mismatch(found: Word) | NotAJal(found: Word)

  datatype Result<T> = Ok(value: T) | Err(error: HookError)

  function EncodeJal(target: nat): Word {
    Pow2Values();
    OrDisjoint(3, target / 4 % 0x400_0000, 26);
    BitOr(0x0C00_0000, target / 4 % 0x400_0000)
  }

  function DecodeJal(instr: Word): Option<nat> {
    if instr / 0x400_0000 % 64 != 3 then None else Some(instr % 0x400_0000 * 4)
  }

  lemma DecodeEncodedJal(target: nat)
    ensures DecodeJal(EncodeJal(target)) == Some(target / 4 % 0x400_0000 * 4)
  {
    Pow2Values();
    OrDisjoint(3, target / 4 % 0x400_0000, 26);
    hide BitOr;
    var field := target / 4 % 0x400_0000;
    DivModUnique(0x0C00_0000 + field, 0x400_0000, 3, field);
  }

  /** The encoding inverts exactly for word-aligned targets below 256 MB. */
  lemma JalRoundTrip(target: nat)
    ensures DecodeJal(EncodeJal(target)) == Some(target) <==> target % 4 == 0 && target < 0x1000_0000
  {
    hide EncodeJal, DecodeJal;
    DecodeEncodedJal(target);
  }

  datatype HookHandle = HookHandle(patchAddr: nat, original: Word, handler: nat)

  /** The dictionary `_active`, by patched address. */
  type Active = Dict<nat, HookHandle>

  /** Manager and memory together. */
  datatype State = State(mem: Memory, active: Active)

  function InstallCheck(m: Memory, addr: nat, handler: nat, expected: Option<Word>): Option<HookError> {
    var current := Rd32(m, addr);
    if expected.Some? && current != expected.value then
      Some(if DecodeJal(current) == Some(handler) then AlreadyHooked else Mismatch(current))
    else if DecodeJal(current) == None then Some(NotAJal(current))
    else None
  }

  /** The guard: a site is patched exactly if it holds a JAL, the expected one where one
      is given; a site that was hooked to this very handler is told apart. */
  lemma InstallGuardIs(m: Memory, addr: nat, handler: nat, expected: Option<Word>)
    ensures var current := Rd32(m, addr);
            var surprise := expected.Some? && current != expected.value;
            && (InstallCheck(m, addr, handler, expected) == None <==> !surprise && current / 0x400_0000 == 3)
            && (InstallCheck(m, addr, handler, expected) == Some(AlreadyHooked)
                <==> surprise && current / 0x400_0000 == 3 && current % 0x400_0000 * 4 == handler)
            && (InstallCheck(m, addr, handler, expected) == Some(NotAJal(current))
                <==> !surprise && current / 0x400_0000 != 3)
  {
    hide Rd32;
  }

  function Install(s: State, addr: nat, handler: nat): State {
    State(Wr32(s.mem, addr, EncodeJal(handler)), Put(s.active, addr, HookHandle(addr, Rd32(s.mem, addr), handler)))
  }

  function Restore(s: State, h: HookHandle): State {
    State(Wr32(s.mem, h.patchAddr, h.original), Remove(s.active, h.patchAddr))
  }

  function RestoreEach(s: State, hs: seq<HookHandle>): State
    decreases |hs|
  {
    if hs == [] then s else RestoreEach(Restore(s, hs[0]), hs[1..])
  }

  class HookManager {
    const bridge: Bridge
    var active: Active

    constructor (bridge: Bridge)
      ensures this.bridge == bridge && active == []
    {
      this.bridge := bridge;
      active := [];
    }

    ghost function Snapshot(): State
      reads this, bridge
    {
      State(bridge.mem, active)
    }

    method InstallHook(addr: nat, handler: nat, expected: Option<Word>) returns (r: Result<HookHandle>)
      requires bridge.online
      modifies this`active, bridge`mem
      ensures var error := old(InstallCheck(bridge.mem, addr, handler, expected));
              if error.Some? then r == Err(error.value) && Snapshot() == old(Snapshot())
              else r == Ok(HookHandle(addr, old(Rd32(bridge.mem, addr)), handler))
                   && Snapshot() == Install(old(Snapshot()), addr, handler)
    {
      hide Rd32, Wr32, EncodeJal, DecodeJal;
      var current := Rd32(bridge.mem, addr);
      if expected.Some? && current != expected.value {
        if DecodeJal(current) == Some(handler) {
          return Err(AlreadyHooked);
        }
        return Err(Mismatch(current));
      }
      if DecodeJal(current) == None {
        return Err(NotAJal(current));
      }
      bridge.mem := Wr32(bridge.mem, addr, EncodeJal(handler));
      var handle := HookHandle(addr, current, handler);
      active := Put(active, addr, handle);
      r := Ok(handle);
    }

    method RestoreHook(handle: HookHandle)
      requires bridge.online
      modifies this`active, bridge`mem
      ensures Snapshot() == Restore(old(Snapshot()), handle)
    {
      bridge.mem := Wr32(bridge.mem, handle.patchAddr, handle.original);
      active := Remove(active, handle.patchAddr);
    }

    method RestoreAll()
      requires bridge.online
      modifies this`active, bridge`mem
      ensures Snapshot() == RestoreEach(old(Snapshot()), Values(old(active)))
    {
      hide Restore, Wr32;
      var handles := Values(active);
      var i := 0;
      while i < |handles|
        invariant 0 <= i <= |handles| && bridge.online
        invariant RestoreEach(Snapshot(), handles[i..]) == RestoreEach(old(Snapshot()), handles)
      {
        assert handles[i..][0] == handles[i] && handles[i..][1..] == handles[i + 1..];
        RestoreHook(handles[i]);
        i := i + 1;
      }
    }
  }

  // ---- Restoring everything ----------------------------------------------

  /** Byte a belongs to the word patched by some active hook. */
  ghost predicate Patched(active: Active, a: nat) {
    exists i :: 0 <= i < |active| && active[i].0 <= a < active[i].0 + 4
  }

  ghost predicate Apart(active: Active, addr: nat) {
    forall i :: 0 <= i < |active| ==> Disjoint(active[i].0, addr)
  }

  /** m0 is what memory was before the active hooks: their words do not overlap,
      each handle remembers m0's word, and nothing else has changed. */
  ghost predicate Undoes(m0: Memory, s: State) {
    && (forall i, j :: 0 <= i < j < |s.active| ==> Disjoint(s.active[i].0, s.active[j].0))
    && (forall i :: 0 <= i < |s.active| ==>
          s.active[i].1.patchAddr == s.active[i].0 && s.active[i].1.original == Rd32(m0, s.active[i].0))
    && (forall a: nat :: !Patched(s.active, a) ==> Rd8(s.mem, a) == Rd8(m0, a))
  }

  predicate Disjoint(a: nat, b: nat) { a + 4 <= b || b + 4 <= a }

  ghost predicate SameBytes(m: Memory, m': Memory) {
    forall a: nat :: Rd8(m', a) == Rd8(m, a)
  }

  lemma InstallUndoable(m0: Memory, s: State, addr: nat, handler: nat)
    requires Undoes(m0, s) && Apart(s.active, addr)
    ensures Undoes(m0, Install(s, addr, handler))
  {
    hide Rd32, Wr32, Rd8, EncodeJal, Put, Find, Distinct;
    var h := HookHandle(addr, Rd32(s.mem, addr), handler);
    var t := Install(s, addr, handler);
    PutKeys(s.active, addr, h);
    FindNone(s.active, addr);
    Wr32Effect(s.mem, addr, EncodeJal(handler));
    assert t.active[|s.active|] == (addr, h);
    assert forall i :: 0 <= i < |s.active| ==> t.active[i] == s.active[i];
    assert SameWithin(m0, s.mem, addr, addr + 4);
    Rd32Same(m0, s.mem, addr);
    forall a: nat | !Patched(t.active, a)
      ensures Rd8(t.mem, a) == Rd8(m0, a)
    {
      assert !Patched(s.active, a);
    }
  }

  lemma RestoreUndoable(m0: Memory, s: State, k: nat)
    requires Undoes(m0, s) && k < |s.active|
    ensures var t := Restore(s, s.active[k].1); t.active == s.active[..k] + s.active[k + 1..] && Undoes(m0, t)
  {
    hide Rd32, Wr32, Rd8;
    var h := s.active[k].1;
    var t := Restore(s, h);
    RemoveAt(s.active, k);
    Wr32Effect(s.mem, h.patchAddr, h.original);
    assert forall i :: 0 <= i < |t.active| ==> t.active[i] == s.active[if i < k then i else i + 1];
    forall a: nat | !Patched(t.active, a)
      ensures Rd8(t.mem, a) == Rd8(m0, a)
    {
      if h.patchAddr <= a < h.patchAddr + 4 {
        SameWordSameByte(m0, t.mem, h.patchAddr, a);
      } else if Patched(s.active, a) {
        StillPatched(s.active, k, a);
      }
    }
  }

  lemma StillPatched(active: Active, k: nat, a: nat)
    requires k < |active| && Patched(active, a) && !(active[k].0 <= a < active[k].0 + 4)
    ensures Patched(active[..k] + active[k + 1..], a)
  {
    var i :| 0 <= i < |active| && active[i].0 <= a < active[i].0 + 4;
    assert (active[..k] + active[k + 1..])[if i < k then i else i - 1] == active[i];
  }

  lemma SameWordSameByte(m: Memory, m': Memory, w: nat, a: nat)
    requires Rd32(m, w) == Rd32(m', w) && w <= a < w + 4
    ensures Rd8(m', a) == Rd8(m, a)
  {
    hide Rd8;
    var a1: int, a2: int, a3: int := Rd8(m, w + 1), Rd8(m, w + 2), Rd8(m, w + 3);
    var b1: int, b2: int, b3: int := Rd8(m', w + 1), Rd8(m', w + 2), Rd8(m', w + 3);
    LowByte(Rd8(m, w), a1 + 0x100 * a2 + 0x1_0000 * a3, Rd8(m', w), b1 + 0x100 * b2 + 0x1_0000 * b3);
    LowByte(a1, a2 + 0x100 * a3, b1, b2 + 0x100 * b3);
    LowByte(a2, a3, b2, b3);
  }

  lemma LowByte(a: Byte, x: int, b: Byte, y: int)
    requires a + 0x100 * x == b + 0x100 * y
    ensures a == b && x == y
  {}

  lemma {:induction false} RestoreEachUndoes(m0: Memory, s: State)
    requires Undoes(m0, s)
    ensures RestoreEach(s, Values(s.active)).active == [] && SameBytes(m0, RestoreEach(s, Values(s.active)).mem)
    decreases |s.active|
  {
    if s.active == [] {
    } else {
      RestoreUndoable(m0, s, 0);
      var t := Restore(s, s.active[0].1);
      assert Values(s.active)[1..] == Values(t.active);
      RestoreEachUndoes(m0, t);
    }
  }

  // ---- Runs --------------------------------------------------------------

  datatype Command = DoInstall(addr: nat, handler: nat, expected: Option<Word>) | DoRestore(k: nat)

  function Apply(s: State, c: Command): State {
    match c
    case DoInstall(addr, handler, expected) =>
      if InstallCheck(s.mem, addr, handler, expected).Some? then s else Install(s, addr, handler)
    case DoRestore(k) => if k < |s.active| then Restore(s, s.active[k].1) else s
  }

  function ApplyAll(s: State, cs: seq<Command>): State {
    if cs == [] then s else Apply(ApplyAll(s, cs[..|cs| - 1]), cs[|cs| - 1])
  }

  /** The command is an install that the guard lets through. */
  predicate Installs(s: State, c: Command) {
    c.DoInstall? && InstallCheck(s.mem, c.addr, c.handler, c.expected).None?
  }

  /** No install that is let through hits a word that is hooked at that moment. */
  ghost predicate OnePerWord(s: State, cs: seq<Command>) {
    forall i :: 0 <= i < |cs| && Installs(ApplyAll(s, cs[..i]), cs[i]) ==>
      Apart(ApplyAll(s, cs[..i]).active, cs[i].addr)
  }

  /** However many installs succeed or are refused, at hooked words too, and whichever active hooks are
      restored on the way, `restore_all` gives back the memory of the start. */
  lemma {:induction false} RestoreAllUndoesRun(m0: Memory, cs: seq<Command>)
    requires OnePerWord(State(m0, []), cs)
    ensures var s := ApplyAll(State(m0, []), cs);
            Undoes(m0, s) && SameBytes(m0, RestoreEach(s, Values(s.active)).mem)
  {
    var s0 := State(m0, []);
    hide Undoes, Apply, Install, Installs, Restore, InstallCheck, Rd8;
    if cs == [] {
      assert Undoes(m0, s0) by { NothingToUndo(m0); }
    } else {
      var n := |cs| - 1;
      assert forall i :: 0 <= i < n ==> cs[..n][..i] == cs[..i];
      RestoreAllUndoesRun(m0, cs[..n]);
      ApplyUndoable(m0, ApplyAll(s0, cs[..n]), cs[n]);
    }
    RestoreEachUndoes(m0, ApplyAll(s0, cs));
  }

  lemma NothingToUndo(m0: Memory)
    ensures Undoes(m0, State(m0, []))
  {}

  lemma ApplyUndoable(m0: Memory, s: State, c: Command)
    requires Undoes(m0, s) && (Installs(s, c) ==> Apart(s.active, c.addr))
    ensures Undoes(m0, Apply(s, c))
  {
    hide Undoes, Install, Restore, InstallCheck, Apart;
    match c
    case DoInstall(addr, handler, expected) => if Installs(s, c) { InstallUndoable(m0, s, addr, handler); }
    case DoRestore(k) => if k < |s.active| { RestoreUndoable(m0, s, k); }
  }

  // ---- Two hooks at one address ------------------------------------------

  /** The second install forgets the first one's original: restoring everything
      leaves the first hook's jump in place, so it is a full restore exactly if
      the site already jumped to the first handler. */
  lemma SecondInstallLosesOriginal(m0: Memory, addr: nat, first: nat, second: nat)
    ensures var s := Install(Install(State(m0, []), addr, first), addr, second);
            && s.active == [(addr, HookHandle(addr, EncodeJal(first), second))]
            && Rd32(RestoreEach(s, Values(s.active)).mem, addr) == EncodeJal(first)
            && (SameBytes(m0, RestoreEach(s, Values(s.active)).mem) <==> Rd32(m0, addr) == EncodeJal(first))
  {
    hide Rd32, Wr32, Rd8, EncodeJal, SameBytes;
    var m1 := Wr32(m0, addr, EncodeJal(first));
    var m2 := Wr32(m1, addr, EncodeJal(second));
    Wr32Effect(m0, addr, EncodeJal(first));
    var s := Install(Install(State(m0, []), addr, first), addr, second);
    var h := HookHandle(addr, EncodeJal(first), second);
    assert s == State(m2, [(addr, h)]);
    assert Values(s.active) == [h];
    assert RestoreEach(s, [h]) == RestoreEach(Restore(s, h), []);
    RewrittenIff(m0, addr, EncodeJal(first), EncodeJal(second));
  }

  /** Writing a word, another and the first again leaves memory as it was exactly if
      the first word stood there. */
  lemma RewrittenIff(m0: Memory, addr: nat, j1: Word, j2: Word)
    ensures var m3 := Wr32(Wr32(Wr32(m0, addr, j1), addr, j2), addr, j1);
            Rd32(m3, addr) == j1 && (SameBytes(m0, m3) <==> Rd32(m0, addr) == j1)
  {
    hide Rd32, Wr32, Rd8;
    var m1 := Wr32(m0, addr, j1);
    var m2 := Wr32(m1, addr, j2);
    var m3 := Wr32(m2, addr, j1);
    Wr32Effect(m0, addr, j1);
    Wr32Effect(m1, addr, j2);
    Wr32Effect(m2, addr, j1);
    if SameBytes(m0, m3) {
      Rd32Same(m0, m3, addr);
    } else if Rd32(m0, addr) == j1 {
      forall a: nat
        ensures Rd8(m3, a) == Rd8(m0, a)
      {
        if addr <= a < addr + 4 {
          SameWordSameByte(m0, m3, addr, a);
        }
      }
    }
  }

  /** Unwinding two nested hooks by their handles, last in first out, does
      restore the memory. */
  lemma NestedUnwind(m0: Memory, addr: nat, first: nat, second: nat)
    ensures var h1 := HookHandle(addr, Rd32(m0, addr), first);
            var h2 := HookHandle(addr, EncodeJal(first), second);
            var s := Install(Install(State(m0, []), addr, first), addr, second);
            SameBytes(m0, Restore(Restore(s, h2), h1).mem) && Restore(Restore(s, h2), h1).active == []
  {
    hide Rd32, Wr32, Rd8, EncodeJal;
    var j1, j2, w := EncodeJal(first), EncodeJal(second), Rd32(m0, addr);
    var m1 := Wr32(m0, addr, j1);
    var m2 := Wr32(m1, addr, j2);
    var m3 := Wr32(m2, addr, j1);
    var m4 := Wr32(m3, addr, w);
    Wr32Effect(m0, addr, j1);
    Wr32Effect(m1, addr, j2);
    Wr32Effect(m2, addr, j1);
    Wr32Effect(m3, addr, w);
    forall a: nat
      ensures Rd8(m4, a) == Rd8(m0, a)
    {
      if addr <= a < addr + 4 {
        SameWordSameByte(m0, m4, addr, a);
      }
    }
  }
}
