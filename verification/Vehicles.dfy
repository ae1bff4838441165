/** The vehicle catalog reader of mc3api/vehicles.py. */
module Vehicles {
  import opened EeMemory
  import opened EeBridge
  import opened PurchaseRing
  import MipsAssembler

  const VEHICLE_STRIDE: nat := 0x1C
  const MAX_VEHICLES: nat := 128
  const VEHICLE_LIST_PTR: nat := 0x006E_0170
  const VEHICLE_COUNT: nat := 0x006E_0174

  datatype Vehicle = Vehicle(index: nat, eeAddr: nat, namePtr: nat, name: string)

  predicate ValidEePtr(p: nat) { 0x0010_0000 < p < 0x0200_0000 }

  /** `isprintable` on what the c-string reader returns: ASCII, or the
      replacement character. */
  predicate IsPrintable(name: string) {
    forall i :: 0 <= i < |name| ==> name[i] >= ' ' && name[i] != '\U{007F}'
  }

  function U32(raw: seq<Byte>, off: nat): nat
    requires off + 4 <= |raw|
  {
    var b0: nat, b1: nat, b2: nat, b3: nat := raw[off], raw[off + 1], raw[off + 2], raw[off + 3];
    b0 + 0x100 * b1 + 0x1_0000 * b2 + 0x100_0000 * b3
  }

  /** Entry i is readable, points into memory, and has a printable name. */
  predicate GoodEntry(raw: seq<Byte>, resolver: nat -> string, i: nat) {
    var off := i * VEHICLE_STRIDE;
    && off + 4 <= |raw|
    && ValidEePtr(U32(raw, off))
    && resolver(U32(raw, off)) != "" && IsPrintable(resolver(U32(raw, off)))
  }

  function EntryAt(raw: seq<Byte>, base: nat, resolver: nat -> string, i: nat): Vehicle
    requires GoodEntry(raw, resolver, i)
  {
    var off := i * VEHICLE_STRIDE;
    Vehicle(i, base + off, U32(raw, off), resolver(U32(raw, off)))
  }

  /** The catalog is the longest run of good entries from the start, at most
      128 of them, and entry i sits at position i. */
  ghost predicate IsCatalog(vs: seq<Vehicle>, raw: seq<Byte>, base: nat, resolver: nat -> string) {
    && |vs| <= MAX_VEHICLES
    && (forall i :: 0 <= i < |vs| ==> GoodEntry(raw, resolver, i) && vs[i] == EntryAt(raw, base, resolver, i))
    && (|vs| < MAX_VEHICLES ==> !GoodEntry(raw, resolver, |vs|))
  }

  method ParseVehicleArray(raw: seq<Byte>, base: nat, resolver: nat -> string) returns (vs: seq<Vehicle>)
    ensures IsCatalog(vs, raw, base, resolver)
  {
    vs := [];
    var i := 0;
    while i < MAX_VEHICLES
      invariant 0 <= i <= MAX_VEHICLES && |vs| == i
      invariant forall k :: 0 <= k < i ==> GoodEntry(raw, resolver, k) && vs[k] == EntryAt(raw, base, resolver, k)
    {
      var off := i * VEHICLE_STRIDE;
      if off + 4 > |raw| {
        break;
      }
      var namePtr := U32(raw, off);
      if !ValidEePtr(namePtr) {
        break;
      }
      var name := resolver(namePtr);
      if name == "" || !IsPrintable(name) {
        break;
      }
      vs := vs + [Vehicle(i, base + off, namePtr, name)];
      i := i + 1;
    }
  }

  /** The catalog is determined by the bytes. */
  lemma CatalogUnique(vs: seq<Vehicle>, ws: seq<Vehicle>, raw: seq<Byte>, base: nat, resolver: nat -> string)
    requires IsCatalog(vs, raw, base, resolver) && IsCatalog(ws, raw, base, resolver)
    ensures vs == ws
  {
    assert !(|vs| < |ws|) && !(|ws| < |vs|);
    assert forall i :: 0 <= i < |vs| ==> vs[i] == ws[i];
  }

  function CountField(m: Memory): nat {
    Rd8(m, VEHICLE_COUNT) + 0x100 * Rd8(m, VEHICLE_COUNT + 1)
  }

  function EntriesToRead(m: Memory): nat {
    if 0 < CountField(m) <= MAX_VEHICLES then CountField(m) else MAX_VEHICLES
  }

  /** What `read_vehicles` finds in memory. */
  ghost predicate CatalogIn(m: Memory, vs: seq<Vehicle>) {
    var base := Rd32(m, VEHICLE_LIST_PTR);
    if ValidEePtr(base)
    then IsCatalog(vs, RdBytes(m, base, EntriesToRead(m) * VEHICLE_STRIDE), base, Names(m))
    else vs == []
  }

  /** The name that a plausible pointer leads to: printable, and not empty. */
  predicate NamedAt(m: Memory, p: Word, name: string) {
    && 0x0010_0000 < p < 0x0200_0000 && IsCString(m, p, 32, name) && name != ""
    && forall i :: 0 <= i < |name| ==> ' ' <= name[i] && name[i] != '\U{7F}'
  }

  ghost predicate HasName(m: Memory, p: Word) {
    exists name :: NamedAt(m, p, name)
  }

  /** The catalog as it stands in memory: a list of 28-byte entries behind the pointer
      at 0x006E0170, as many as the count at 0x006E0174 says (128 if that is
      implausible), up to the first entry without a good name. */
  ghost predicate CatalogAt(m: Memory, vs: seq<Vehicle>) {
    var list := Rd32(m, 0x006E_0170);
    var count: nat := Rd8(m, 0x006E_0174) + 256 * Rd8(m, 0x006E_0175);
    var limit := if 1 <= count <= 128 then count else 128;
    if 0x0010_0000 < list < 0x0200_0000 then
      && |vs| <= limit
      && (forall i :: 0 <= i < |vs| ==> IsEntry(m, list + 0x1C * i, i, vs[i]))
      && (|vs| < limit ==> !HasName(m, Rd32(m, list + 0x1C * |vs|)))
    else vs == []
  }

  predicate IsEntry(m: Memory, a: nat, i: nat, v: Vehicle) {
    v.index == i && v.eeAddr == a && v.namePtr == Rd32(m, a) && NamedAt(m, v.namePtr, v.name)
  }

  lemma NamedOnce(m: Memory, p: Word, name: string)
    requires NamedAt(m, p, name)
    ensures name == CString(m, p, 32)
  {
    CStringUnique(m, p, 32, name);
  }

  function Names(m: Memory): nat -> string {
    (p: nat) => CString(m, p, 32)
  }

  lemma PointerRead(m: Memory, list: nat, n: nat, i: nat)
    requires i < n
    ensures i * VEHICLE_STRIDE + 4 <= n * VEHICLE_STRIDE
    ensures U32(RdBytes(m, list, n * VEHICLE_STRIDE), i * VEHICLE_STRIDE) == Rd32(m, list + 0x1C * i)
  {
    hide Rd8;
  }

  /** Entry i of the array as read, against the memory it was read from. */
  lemma EntryMeans(m: Memory, list: nat, n: nat, i: nat)
    ensures var raw := RdBytes(m, list, n * VEHICLE_STRIDE);
            var p := Rd32(m, list + 0x1C * i);
            && (GoodEntry(raw, Names(m), i) <==> i < n && NamedAt(m, p, CString(m, p, 32)))
            && (GoodEntry(raw, Names(m), i) ==>
                  EntryAt(raw, list, Names(m), i) == Vehicle(i, list + 0x1C * i, p, CString(m, p, 32)))
  {
    hide Rd8, Rd32, U32, CString, IsCString;
    if i < n {
      PointerRead(m, list, n, i);
      CStringIs(m, Rd32(m, list + 0x1C * i), 32);
    }
  }

  lemma EntryIs(m: Memory, a: nat, i: nat, v: Vehicle)
    ensures IsEntry(m, a, i, v)
            <==> v == Vehicle(i, a, Rd32(m, a), CString(m, Rd32(m, a), 32)) && NamedAt(m, Rd32(m, a), v.name)
  {
    hide NamedAt, Rd32, CString;
    if IsEntry(m, a, i, v) {
      NamedOnce(m, Rd32(m, a), v.name);
    }
  }

  /** Entry i was read as v. */
  predicate ReadsAs(m: Memory, list: nat, n: nat, i: nat, v: Vehicle) {
    var raw := RdBytes(m, list, n * VEHICLE_STRIDE);
    GoodEntry(raw, Names(m), i) && v == EntryAt(raw, list, Names(m), i)
  }

  lemma ReadsAsIs(m: Memory, list: nat, n: nat, i: nat, v: Vehicle)
    ensures ReadsAs(m, list, n, i, v) <==> i < n && IsEntry(m, list + 0x1C * i, i, v)
  {
    hide GoodEntry, EntryAt, NamedAt, Rd32, RdBytes, CString, IsEntry;
    EntryMeans(m, list, n, i);
    EntryIs(m, list + 0x1C * i, i, v);
  }

  lemma CatalogReads(m: Memory, vs: seq<Vehicle>, list: nat, n: nat)
    requires n <= 128
    ensures IsCatalog(vs, RdBytes(m, list, n * VEHICLE_STRIDE), list, Names(m))
            <==> && |vs| <= n && (forall i :: 0 <= i < |vs| ==> IsEntry(m, list + 0x1C * i, i, vs[i]))
                 && (|vs| < n ==> !HasName(m, Rd32(m, list + 0x1C * |vs|)))
  {
    var raw := RdBytes(m, list, n * VEHICLE_STRIDE);
    hide GoodEntry, EntryAt, NamedAt, Rd32, RdBytes, CString, IsEntry, HasName;
    forall i | 0 <= i < |vs|
      ensures GoodEntry(raw, Names(m), i) && vs[i] == EntryAt(raw, list, Names(m), i)
              <==> i < n && IsEntry(m, list + 0x1C * i, i, vs[i])
    {
      ReadsAsIs(m, list, n, i, vs[i]);
    }
    EntryMeans(m, list, n, |vs|);
    HasNameIs(m, Rd32(m, list + 0x1C * |vs|));
    assert |vs| > n ==> !GoodEntry(raw, Names(m), n) by { EntryMeans(m, list, n, n); }
  }

  /** What is read is that catalog. */
  lemma CatalogMeans(m: Memory, vs: seq<Vehicle>)
    ensures CatalogIn(m, vs) <==> CatalogAt(m, vs)
  {
    hide Rd8, Rd32, RdBytes, IsCatalog, HasName, IsEntry;
    CatalogReads(m, vs, Rd32(m, VEHICLE_LIST_PTR), EntriesToRead(m));
  }

  lemma HasNameIs(m: Memory, p: Word)
    ensures HasName(m, p) <==> NamedAt(m, p, CString(m, p, 32))
  {
    hide NamedAt, CString;
    if name :| NamedAt(m, p, name) {
      NamedOnce(m, p, name);
    }
  }

  /** A word stands at offset off, little-endian. */
  predicate WordAt(raw: seq<Byte>, off: nat, w: Word) {
    off + 4 <= |raw| && raw[off..off + 4] == MipsAssembler.LittleEndian(w)
  }

  predicate Printable(name: string) {
    name != "" && forall i :: 0 <= i < |name| ==> ' ' <= name[i] && name[i] != '\U{7F}'
  }

  lemma WordRead(raw: seq<Byte>, off: nat, w: Word)
    requires WordAt(raw, off, w)
    ensures U32(raw, off) == w
  {
    WordBytes(w);
    var four := raw[off..off + 4];
    assert four[0] == raw[off] && four[1] == raw[off + 1] && four[2] == raw[off + 2] && four[3] == raw[off + 3];
    assert w / 0x100_0000 % 256 == w / 0x100_0000;
  }

  /** An array of little-endian entries with plausible pointers to printable names,
      which is full, ends, or goes on with an implausible pointer, parses back to
      exactly those vehicles. */
  lemma CatalogRoundTrip(raw: seq<Byte>, base: nat, resolver: nat -> string, ptrs: seq<Word>, stop: Word,
                         vs: seq<Vehicle>)
    requires |ptrs| <= 128
    requires forall i :: 0 <= i < |ptrs| ==>
               WordAt(raw, 28 * i, ptrs[i]) && 0x0010_0000 < ptrs[i] < 0x0200_0000 && Printable(resolver(ptrs[i]))
    requires |ptrs| < 128 && 28 * |ptrs| + 4 <= |raw| ==>
               WordAt(raw, 28 * |ptrs|, stop) && !(0x0010_0000 < stop < 0x0200_0000)
    requires IsCatalog(vs, raw, base, resolver)
    ensures |vs| == |ptrs|
    ensures forall i :: 0 <= i < |vs| ==> vs[i] == Vehicle(i, base + 28 * i, ptrs[i], resolver(ptrs[i]))
  {
    hide U32, WordAt;
    forall i | 0 <= i < |ptrs|
      ensures GoodEntry(raw, resolver, i)
      ensures EntryAt(raw, base, resolver, i) == Vehicle(i, base + 28 * i, ptrs[i], resolver(ptrs[i]))
    {
      WordRead(raw, 28 * i, ptrs[i]);
      WordFits(raw, 28 * i, ptrs[i]);
    }
    if |ptrs| < 128 && 28 * |ptrs| + 4 <= |raw| {
      WordRead(raw, 28 * |ptrs|, stop);
    }
    assert |ptrs| < 128 ==> !GoodEntry(raw, resolver, |ptrs|);
    hide GoodEntry, EntryAt;
  }

  lemma WordFits(raw: seq<Byte>, off: nat, w: Word)
    requires WordAt(raw, off, w)
    ensures off + 4 <= |raw|
  {}

  method ReadVehicles(bridge: Bridge) returns (vs: seq<Vehicle>)
    requires bridge.online
    ensures CatalogIn(bridge.mem, vs) && CatalogAt(bridge.mem, vs)
    ensures |vs| <= MAX_VEHICLES && forall i :: 0 <= i < |vs| ==> vs[i].index == i
  {
    var m := bridge.mem;
    var base := Rd32(m, VEHICLE_LIST_PTR);
    if !ValidEePtr(base) {
      CatalogMeans(m, []);
      return [];
    }
    var raw := RdBytes(m, base, EntriesToRead(m) * VEHICLE_STRIDE);
    vs := ParseVehicleArray(raw, base, Names(m));
    CatalogMeans(m, vs);
  }
}
