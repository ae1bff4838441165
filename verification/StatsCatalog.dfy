/** The career stats catalog (mc3api/stats.py): 16-byte tagged entries, found by
    scanning, never by position. */
module StatsCatalog {
  import opened EeMemory
  import opened Options

  const ENTRY_SIZE: nat := 16
  const MAX_ENTRIES: nat := 512
  const TERMINATOR: seq<Byte> := [0xCD, 0xCD, 0xCD, 0xCD]

  type Tag = t: seq<Byte> | |t| == 4 && forall i :: 0 <= i < 4 ==> 0x20 <= t[i] < 0x7F
    witness [0x20, 0x20, 0x20, 0x20]

  datatype StatEntry = StatEntry(tag: Tag, index: Word, meta: Word, rawValue: Word)

  type Key = (Tag, Word)

  function KeyOf(e: StatEntry): Key { (e.tag, e.index) }

  predicate IsTag(bs: seq<Byte>) {
    |bs| == 4 && forall i :: 0 <= i < 4 ==> 0x20 <= bs[i] < 0x7F
  }

  function WordOf(bs: seq<Byte>): Word
    requires |bs| == 4
  {
    var b0: nat, b1: nat, b2: nat, b3: nat := bs[0], bs[1], bs[2], bs[3];
    b0 + 0x100 * b1 + 0x1_0000 * b2 + 0x100_0000 * b3
  }

  /** The entries of a raw catalog, at most n of them: up to the terminator or
      the first tag that is not printable ASCII. */
  function Parse(raw: seq<Byte>, n: nat): (es: seq<StatEntry>)
    ensures |es| <= n
    decreases n
  {
    if n == 0 || |raw| < ENTRY_SIZE || raw[..4] == TERMINATOR || !IsTag(raw[..4]) then []
    else [StatEntry(raw[..4], WordOf(raw[4..8]), WordOf(raw[8..12]), WordOf(raw[12..16]))] + Parse(raw[16..], n - 1)
  }

  /** The entry at byte offset i. */
  function EntryAt(raw: seq<Byte>, i: nat): StatEntry
    requires i + ENTRY_SIZE <= |raw| && IsTag(raw[i..i + 4])
  {
    StatEntry(raw[i..i + 4], WordOf(raw[i + 4..i + 8]), WordOf(raw[i + 8..i + 12]), WordOf(raw[i + 12..i + 16]))
  }

  lemma ParseAt(raw: seq<Byte>, i: nat, n: nat)
    requires i <= |raw|
    ensures Parse(raw[i..], n)
            == if n == 0 || i + ENTRY_SIZE > |raw| || raw[i..i + 4] == TERMINATOR || !IsTag(raw[i..i + 4]) then []
               else [EntryAt(raw, i)] + Parse(raw[i + ENTRY_SIZE..], n - 1)
  {
    hide WordOf, IsTag;
    var rest := raw[i..];
    if i + ENTRY_SIZE <= |raw| {
      assert rest[..4] == raw[i..i + 4] && rest[4..8] == raw[i + 4..i + 8] && rest[8..12] == raw[i + 8..i + 12];
      assert rest[12..16] == raw[i + 12..i + 16] && rest[16..] == raw[i + 16..];
    }
  }

  method ParseCatalog(raw: seq<Byte>) returns (entries: seq<StatEntry>)
    ensures entries == Parse(raw, MAX_ENTRIES)
  {
    hide Parse, WordOf, IsTag;
    entries := [];
    var i := 0;
    var limit := if |raw| < MAX_ENTRIES * ENTRY_SIZE then |raw| else MAX_ENTRIES * ENTRY_SIZE;
    ghost var n := MAX_ENTRIES;  // entries still allowed
    assert raw[0..] == raw;
    while i < limit
      invariant i == ENTRY_SIZE * (MAX_ENTRIES - n) && 0 <= n <= MAX_ENTRIES && i <= |raw|
      invariant entries + Parse(raw[i..], n) == Parse(raw, MAX_ENTRIES)
      decreases limit - i
    {
      ParseAt(raw, i, n);
      if i + ENTRY_SIZE > |raw| {
        return;
      }
      if raw[i..i + 4] == TERMINATOR {
        return;
      }
      if !IsTag(raw[i..i + 4]) {
        return;
      }
      entries := entries + [EntryAt(raw, i)];
      i := i + ENTRY_SIZE;
      n := n - 1;
    }
    ParseAt(raw, i, n);
  }

  // ---- Round trip --------------------------------------------------------

  function WordBytesOf(w: Word): (bs: seq<Byte>)
    ensures |bs| == 4
  {
    [w % 256, w / 0x100 % 256, w / 0x1_0000 % 256, w / 0x100_0000]
  }

  function Serialize(e: StatEntry): (bs: seq<Byte>)
    ensures |bs| == 16
  {
    e.tag + WordBytesOf(e.index) + WordBytesOf(e.meta) + WordBytesOf(e.rawValue)
  }

  function SerializeAll(es: seq<StatEntry>): seq<Byte> {
    if es == [] then [] else Serialize(es[0]) + SerializeAll(es[1..])
  }

  lemma WordOfBytes(w: Word)
    ensures WordOf(WordBytesOf(w)) == w
  {
    WordBytes(w);
  }

  lemma ParseOne(e: StatEntry, rest: seq<Byte>, n: nat)
    requires n > 0
    ensures Parse(Serialize(e) + rest, n) == [e] + Parse(rest, n - 1)
  {
    var raw := Serialize(e) + rest;
    hide WordOf, WordBytesOf;
    WordOfBytes(e.index);
    WordOfBytes(e.meta);
    WordOfBytes(e.rawValue);
    assert raw[..4] == e.tag;
    assert e.tag[0] != TERMINATOR[0];
    assert raw[4..8] == WordBytesOf(e.index) && raw[8..12] == WordBytesOf(e.meta);
    assert raw[12..16] == WordBytesOf(e.rawValue) && raw[16..] == rest;
  }

  /** Whatever lies behind the terminator, the entries come back, up to the cap. */
  lemma {:induction false} RoundTrip(es: seq<StatEntry>, tail: seq<Byte>, n: nat)
    requires n > 0
    ensures Parse(SerializeAll(es) + TERMINATOR + tail, n) == es[..if |es| < n then |es| else n]
  {
    hide Parse, Serialize;
    if es == [] {
      assert SerializeAll(es) + TERMINATOR + tail == TERMINATOR + tail;
      ParseEnd(tail, n);
    } else {
      var rest := SerializeAll(es[1..]) + TERMINATOR + tail;
      assert SerializeAll(es) + TERMINATOR + tail == Serialize(es[0]) + rest;
      ParseOne(es[0], rest, n);
      if n > 1 {
        RoundTrip(es[1..], tail, n - 1);
      } else {
        ParseNone(rest);
      }
    }
  }

  lemma ParseEnd(tail: seq<Byte>, n: nat)
    ensures Parse(TERMINATOR + tail, n) == []
  {
    assert (TERMINATOR + tail)[..4] == TERMINATOR;
  }

  lemma ParseNone(raw: seq<Byte>)
    ensures Parse(raw, 0) == []
  {}

  // ---- Lookups -----------------------------------------------------------

  /** `get`: the first entry with this tag and index. */
  function Get(es: seq<StatEntry>, k: Key): Option<StatEntry> {
    if es == [] then None else if KeyOf(es[0]) == k then Some(es[0]) else Get(es[1..], k)
  }

  /** `first`: the first entry with this tag, whatever its index. */
  function First(es: seq<StatEntry>, tag: Tag): Option<StatEntry> {
    if es == [] then None else if es[0].tag == tag then Some(es[0]) else First(es[1..], tag)
  }

  /** `as_dict`: a later entry replaces an earlier one of the same key. */
  function AsDict(es: seq<StatEntry>): map<Key, Word> {
    if es == [] then map[] else AsDict(es[..|es| - 1])[KeyOf(es[|es| - 1]) := es[|es| - 1].rawValue]
  }

  lemma {:induction false} GetConcat(a: seq<StatEntry>, b: seq<StatEntry>, k: Key)
    ensures Get(a + b, k) == if Get(a, k).Some? then Get(a, k) else Get(b, k)
  {
    if a == [] {
      assert a + b == b;
    } else {
      GetConcat(a[1..], b, k);
      assert (a + b)[1..] == a[1..] + b;
    }
  }

  lemma {:induction false} FirstConcat(a: seq<StatEntry>, b: seq<StatEntry>, tag: Tag)
    ensures First(a + b, tag) == if First(a, tag).Some? then First(a, tag) else First(b, tag)
  {
    if a == [] {
      assert a + b == b;
    } else {
      FirstConcat(a[1..], b, tag);
      assert (a + b)[1..] == a[1..] + b;
    }
  }

  lemma {:induction false} AsDictConcat(a: seq<StatEntry>, b: seq<StatEntry>)
    ensures AsDict(a + b) == AsDict(a) + AsDict(b)
  {
    if b == [] {
      assert a + b == a;
    } else {
      AsDictConcat(a, b[..|b| - 1]);
      assert (a + b)[..|a + b| - 1] == a + b[..|b| - 1];
    }
  }

  /** An entry inserted at any position shifts later entries but changes no
      lookup of another key or tag. */
  lemma InsertShiftsNoLookup(es: seq<StatEntry>, p: nat, e: StatEntry, k: Key, tag: Tag)
    requires p <= |es| && k != KeyOf(e) && tag != e.tag
    ensures var es' := es[..p] + [e] + es[p..];
            && Get(es', k) == Get(es, k)
            && First(es', tag) == First(es, tag)
            && (k in AsDict(es') <==> k in AsDict(es)) && (k in AsDict(es) ==> AsDict(es')[k] == AsDict(es)[k])
  {
    var a, b := es[..p], es[p..];
    assert es == a + b && es[..p] + [e] + es[p..] == a + ([e] + b);
    GetConcat(a, b, k);
    GetConcat(a, [e] + b, k);
    GetConcat([e], b, k);
    FirstConcat(a, b, tag);
    FirstConcat(a, [e] + b, tag);
    FirstConcat([e], b, tag);
    AsDictConcat(a, b);
    AsDictConcat(a, [e] + b);
    AsDictConcat([e], b);
    assert [e][..0] == [];
    assert AsDict([e]) == map[KeyOf(e) := e.rawValue];
  }

  /** The same from raw memory: as long as the grown catalog stays within the
      cap, reading it again finds every other entry where a scan looks. */
  lemma InsertShiftsNoRawLookup(es: seq<StatEntry>, p: nat, e: StatEntry, k: Key, tail: seq<Byte>, tail': seq<Byte>)
    requires p <= |es| < MAX_ENTRIES && k != KeyOf(e)
    ensures Get(Parse(SerializeAll(es[..p] + [e] + es[p..]) + TERMINATOR + tail', MAX_ENTRIES), k)
            == Get(Parse(SerializeAll(es) + TERMINATOR + tail, MAX_ENTRIES), k)
  {
    hide Parse, SerializeAll, Get, First, AsDict;
    var es' := es[..p] + [e] + es[p..];
    RoundTrip(es, tail, MAX_ENTRIES);
    RoundTrip(es', tail', MAX_ENTRIES);
    assert es'[..|es'|] == es' && es[..|es|] == es;
    var tag: Tag := if e.tag == [0x20, 0x20, 0x20, 0x20] then [0x21, 0x21, 0x21, 0x21] else [0x20, 0x20, 0x20, 0x20];
    InsertShiftsNoLookup(es, p, e, k, tag);
  }

  ghost predicate UniqueKeys(es: seq<StatEntry>) {
    forall i, j :: 0 <= i < j < |es| ==> KeyOf(es[i]) != KeyOf(es[j])
  }

  /** The scan takes the first entry of a key and the dictionary the last: with
      unique keys they agree on every key. */
  lemma {:induction false} GetAgreesWithDict(es: seq<StatEntry>, k: Key)
    requires UniqueKeys(es)
    ensures k in AsDict(es) <==> Get(es, k).Some?
    ensures k in AsDict(es) ==> Get(es, k).value.rawValue == AsDict(es)[k]
  {
    if es != [] {
      var n := |es| - 1;
      GetAgreesWithDict(es[..n], k);
      GetConcat(es[..n], [es[n]], k);
      assert es == es[..n] + [es[n]];
      if KeyOf(es[n]) == k {
        GetFinds(es[..n], k);
      }
    }
  }

  lemma {:induction false} GetFinds(es: seq<StatEntry>, k: Key)
    ensures Get(es, k).Some? ==> exists i :: 0 <= i < |es| && es[i] == Get(es, k).value && KeyOf(es[i]) == k
  {
    if es != [] && KeyOf(es[0]) != k {
      GetFinds(es[1..], k);
      if Get(es, k).Some? {
        var i :| 0 <= i < |es[1..]| && es[1..][i] == Get(es, k).value && KeyOf(es[1..][i]) == k;
        assert es[i + 1] == Get(es, k).value;
      }
    }
  }

  /** Parsing stops at the cap, at the end, and at a tag that is not printable, which
      the terminator is not either. */
  lemma ParseStopsIff(raw: seq<Byte>, n: nat)
    ensures Parse(raw, n) == []
            <==> n == 0 || |raw| < 16 || exists i :: 0 <= i < 4 && !(0x20 <= raw[i] < 0x7F)
  {
    assert |raw| >= 16 && raw[..4] == TERMINATOR ==> raw[0] == 0xCD;
    assert |raw| >= 16 ==> forall i :: 0 <= i < 4 ==> raw[..4][i] == raw[i];
  }

  /** The lookups find the first entry of the key, and of the tag. */
  lemma {:induction false} FirstIs(es: seq<StatEntry>, tag: Tag)
    ensures First(es, tag) == None <==> forall i :: 0 <= i < |es| ==> es[i].tag != tag
    ensures First(es, tag).Some? ==>
              exists i :: 0 <= i < |es| && es[i] == First(es, tag).value && es[i].tag == tag
                          && forall j :: 0 <= j < i ==> es[j].tag != tag
  {
    if es != [] && es[0].tag != tag {
      FirstIs(es[1..], tag);
      if First(es, tag).Some? {
        var i :| 0 <= i < |es[1..]| && es[1..][i] == First(es, tag).value && es[1..][i].tag == tag
                 && forall j :: 0 <= j < i ==> es[1..][j].tag != tag;
        assert es[i + 1] == First(es, tag).value;
        assert forall j :: 0 < j < i + 1 ==> es[j] == es[1..][j - 1];
      } else {
        assert forall j :: 0 < j < |es| ==> es[j] == es[1..][j - 1];
      }
    }
  }
}
