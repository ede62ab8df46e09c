// Reading address tables back (src/loader.cpp:14-56).
module Loader {
  import opened Bytes
  import opened Assembler
  import opened Sections
  import opened Generator

  function Names(entries: seq<(Name, nat)>): (n: seq<Name>)
    ensures |n| == |entries| && forall k | 0 <= k < |n| :: n[k] == entries[k].0
  {
    seq(|entries|, k requires 0 <= k < |entries| => entries[k].0)
  }

  // A later entry for the same name replaces an earlier one.
  function Mapping(entries: seq<(Name, nat)>): map<Name, nat> {
    if entries == [] then map[]
    else
      var last := entries[|entries| - 1];
      Mapping(entries[..|entries| - 1])[last.0 := last.1]
  }

  lemma {:induction false} MappingOfDistinct(entries: seq<(Name, nat)>, k: nat)
    requires k < |entries| && Distinct(Names(entries))
    ensures entries[k].0 in Mapping(entries) && Mapping(entries)[entries[k].0] == entries[k].1
    decreases |entries|
  {
    var n := |entries| - 1;
    if k < n {
      assert Names(entries)[k] != Names(entries)[n];
      DistinctPrefix(Names(entries), n);
      assert Names(entries[..n]) == Names(entries)[..n];
      MappingOfDistinct(entries[..n], k);
    }
  }

  lemma {:induction false} TableConcat(a: seq<(Name, nat)>, b: seq<(Name, nat)>)
    ensures Table(a + b) == Table(a) + Table(b)
  {
    hide Entry;
    if b == [] {
      assert a + b == a;
    } else {
      var n := |b| - 1;
      TableConcat(a, b[..n]);
      assert (a + b)[..|a + b| - 1] == a + b[..n];
    }
  }

  // Entry k of a table lies between the entries before it and those after it.
  lemma EntryInTable(entries: seq<(Name, nat)>, k: nat)
    requires k < |entries|
    ensures var at, e := |Table(entries[..k])|, Entry(entries[k].0, entries[k].1);
            && |Table(entries[..k + 1])| == at + |e| <= |Table(entries)|
            && Table(entries)[at..at + |e|] == e
  {
    hide Entry;
    TableSnoc(entries, k);
    assert entries == entries[..k + 1] + entries[k + 1..];
    TableConcat(entries[..k + 1], entries[k + 1..]);
  }

  // An entry is the name, a NUL and the address modulo 2^16, least significant byte first.
  lemma EntryStored(name: Name, address: nat)
    ensures var e, n := Entry(name, address), |name|;
            && |e| == n + 3 && e[..n] == name && e[n] == 0
            && var low: int, high: int := e[n + 1], e[n + 2]; low + 0x100 * high == address % 0x1_0000
  {
  }

  lemma EntryRead(dump: seq<Byte>, at: nat, name: Name, address: nat)
    requires address < 0x1_0000
    requires at + |Entry(name, address)| <= |dump| && dump[at..at + |Entry(name, address)|] == Entry(name, address)
    ensures ReadText(dump, at) == name
    ensures at + |name| + 3 <= |dump|
    ensures ReadShort(dump, at + |name| + 1) == address
  {
    var e, n := Entry(name, address), |name|;
    var w := dump[at..at + |e|];
    assert w[n + 1] == dump[at + n + 1] && w[n + 2] == dump[at + n + 2];
    assert dump[at..at + n + 1] == w[..n + 1] == Terminated(name);
    ReadTerminated(dump, at, name);
  }

  // *(uint16_t*)(dump + at)
  function ReadShort(dump: seq<Byte>, at: nat): nat
    requires at + 2 <= |dump|
  {
    var low: int, high: int := dump[at], dump[at + 1];
    low + 0x100 * high
  }

  // Names in file order and the address of each.
  method LoadMap(dump: seq<Byte>, ghost entries: seq<(Name, nat)>)
    returns (order: seq<Name>, mapping: map<Name, nat>)
    requires dump == Table(entries) && forall k | 0 <= k < |entries| :: entries[k].1 < 0x1_0000
    ensures order == Names(entries) && mapping == Mapping(entries)
  {
    hide Entry, ReadText, TextLength;
    order, mapping := [], map[];
    var i := 0;
    ghost var k := 0;
    assert entries[..0] == [];
    while i < |dump|
      invariant 0 <= k <= |entries| && i == |Table(entries[..k])| <= |dump|
      invariant order == Names(entries[..k]) && mapping == Mapping(entries[..k])
    {
      assert k < |entries| by {
        assert entries[..|entries|] == entries;
      }
      EntryInTable(entries, k);
      EntryRead(dump, i, entries[k].0, entries[k].1);
      EntryLength(entries[k].0, entries[k].1);
      var name := ReadText(dump, i);
      i := i + |name| + 1;
      var address := ReadShort(dump, i);
      i := i + 2;
      mapping := mapping[name := address];
      order := order + [name];
      assert entries[..k + 1] == entries[..k] + [entries[k]];
      k := k + 1;
    }
    if k < |entries| {
      EntryInTable(entries, k);
      EntryLength(entries[k].0, entries[k].1);
    }
    assert entries[..|entries|] == entries;
  }

  lemma EntryLength(name: Name, address: nat)
    ensures |Entry(name, address)| == |name| + 3
  {
  }

  // The size the loader computes for entry k: up to the next entry, or to the end of the
  // bytecode, in 32-bit unsigned arithmetic.
  function SizeOf(entries: seq<(Name, nat)>, size: nat, k: nat): nat
    requires k < |entries|
  {
    ((if k < |entries| - 1 then entries[k + 1].1 else size) - entries[k].1) % 0x1_0000_0000
  }

  method CalculateFunctionSizes(functions: seq<Name>, addresses: map<Name, nat>, size: nat,
                                ghost entries: seq<(Name, nat)>)
    returns (sizes: map<Name, nat>)
    requires functions == Names(entries) && addresses == Mapping(entries) && Distinct(functions)
    ensures forall k | 0 <= k < |functions| ::
              functions[k] in sizes && sizes[functions[k]] == SizeOf(entries, size, k)
  {
    sizes := map[];
    for i := 0 to |functions|
      invariant forall k | 0 <= k < i :: functions[k] in sizes && sizes[functions[k]] == SizeOf(entries, size, k)
    {
      MappingOfDistinct(entries, i);
      var a: int := addresses[functions[i]];
      var b: int := size;
      if i < |functions| - 1 {
        MappingOfDistinct(entries, i + 1);
        b := addresses[functions[i + 1]];
      }
      sizes := sizes[functions[i] := (b - a) % 0x1_0000_0000];
    }
  }

  // The addresses of a table do not decrease and stay inside the bytecode.
  predicate Ascending(entries: seq<(Name, nat)>, size: nat) {
    && (forall k | 0 <= k < |entries| - 1 :: entries[k].1 <= entries[k + 1].1)
    && (entries != [] ==> entries[|entries| - 1].1 <= size)
  }

  // The first n of the computed sizes.
  function SumOfSizes(entries: seq<(Name, nat)>, size: nat, n: nat): nat
    requires n <= |entries|
  {
    if n == 0 then 0 else SumOfSizes(entries, size, n - 1) + SizeOf(entries, size, n - 1)
  }

  // Whatever table is loaded, as long as it ascends the computed sizes partition the bytecode from
  // the first function to the end; linked functions are no exception.
  lemma {:induction false} SizesPartition(entries: seq<(Name, nat)>, size: nat, n: nat)
    requires Ascending(entries, size) && size < 0x1_0000_0000 && n <= |entries| && entries != []
    ensures SumOfSizes(entries, size, n) == (if n < |entries| then entries[n].1 else size) - entries[0].1
  {
    AscendingBelow(entries, size, if n < |entries| then n else n - 1);
    if n > 0 {
      SizesPartition(entries, size, n - 1);
    }
  }

  lemma {:induction false} AscendingBelow(entries: seq<(Name, nat)>, size: nat, k: nat)
    requires Ascending(entries, size) && k < |entries|
    ensures entries[k].1 <= size
    decreases |entries| - k
  {
    if k < |entries| - 1 {
      AscendingBelow(entries, size, k + 1);
    }
  }

  // For the functions of one file each size is that of the body.
  lemma FunctionSizes(v: Invocables, start: nat, k: nat)
    requires Complete(v) && k < |v.names|
    requires start + Before(BodiesOf(v), |v.names|) < 0x1_0000
    ensures SizeOf(Entries(v, start), start + Before(BodiesOf(v), |v.names|), k) == BodyBytes(BodiesOf(v)[k])
  {
    hide BodyBytes;
    BodyOfSection(BodiesOf(v), k);
  }

  // Loading the table written for v gives back its names and the place of each element.
  lemma LoadedEntries(v: Invocables, start: nat, k: nat)
    requires Complete(v) && k < |v.names|
    ensures Names(Entries(v, start)) == v.names
    ensures v.names[k] in Mapping(Entries(v, start))
    ensures Mapping(Entries(v, start))[v.names[k]] == start + Before(BodiesOf(v), k)
  {
    hide Before;
    assert Names(Entries(v, start)) == v.names;
    MappingOfDistinct(Entries(v, start), k);
  }
}
