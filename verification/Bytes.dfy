// Raw bytecode: bytes, little-endian 32-bit integers and NUL-terminated names.
module Bytes {
  type Byte = b: int | 0 <= b < 0x100

  type Int32 = n: int | -0x8000_0000 <= n < 0x8000_0000

  // A name or string literal as it can be stored in bytecode.
  type Name = s: seq<Byte> | 0 !in s

  datatype Option<+T> = None | Some(value: T)

  datatype Result<+T> = Ok(value: T) | Err

  // The two's complement bit pattern of n as an unsigned number.
  function Pattern(n: Int32): nat {
    if n < 0 then n + 0x1_0000_0000 else n
  }

  // Byte k of a 32-bit pattern, least significant first.
  function PatternByte(u: nat, k: nat): Byte {
    (if k == 0 then u else if k == 1 then u / 0x100 else if k == 2 then u / 0x1_0000 else u / 0x100_0000) % 0x100
  }

  function IntBytes(n: Int32): (b: seq<Byte>)
    ensures |b| == 4
  {
    seq(4, k requires 0 <= k < 4 => PatternByte(Pattern(n), k))
  }

  // *(int*)(b + at)
  function ReadInt(b: seq<Byte>, at: nat): Int32
    requires at + 4 <= |b|
  {
    var b0: int, b1: int, b2: int, b3: int := b[at], b[at + 1], b[at + 2], b[at + 3];
    var u := b0 + 0x100 * b1 + 0x1_0000 * b2 + 0x100_0000 * b3;
    if u < 0x8000_0000 then u else u - 0x1_0000_0000
  }

  // The four bytes spell n modulo 2^32, the least significant one first.
  predicate Spell(b: seq<Byte>, n: Int32) {
    && |b| == 4
    && var b0: int, b1: int, b2: int, b3: int := b[0], b[1], b[2], b[3];
       b0 + 0x100 * b1 + 0x1_0000 * b2 + 0x100_0000 * b3 == if n < 0 then 0x1_0000_0000 + n else n
  }

  lemma LittleEndian(n: Int32)
    ensures Spell(IntBytes(n), n)
  {
    var u := Pattern(n);
    assert u / 0x100 / 0x100 == u / 0x1_0000 && u / 0x1_0000 / 0x100 == u / 0x100_0000;
    assert u / 0x100_0000 < 0x100;
  }

  // Writing an integer and reading it back gives the integer, wherever it is written.
  lemma ReadWritten(b: seq<Byte>, at: nat, n: Int32)
    requires at + 4 <= |b| && b[at..at + 4] == IntBytes(n)
    ensures ReadInt(b, at) == n
  {
    var u := Pattern(n);
    var w := b[at..at + 4];
    assert forall k | 0 <= k < 4 :: w[k] == PatternByte(u, k);
    assert w[0] == b[at] && w[1] == b[at + 1] && w[2] == b[at + 2] && w[3] == b[at + 3];
    assert u / 0x100 / 0x100 == u / 0x1_0000 && u / 0x1_0000 / 0x100 == u / 0x100_0000;
    assert u / 0x100_0000 < 0x100;
  }

  // Length of the C string that starts at b[at]; it runs to the end when no NUL follows.
  function TextLength(b: seq<Byte>, at: nat): (n: nat)
    requires at <= |b|
    ensures at + n <= |b|
    ensures at + n < |b| ==> b[at + n] == 0
    ensures forall k | at <= k < at + n :: b[k] != 0
    decreases |b| - at
  {
    if at == |b| || b[at] == 0 then 0 else 1 + TextLength(b, at + 1)
  }

  // std::string(b + at)
  function ReadText(b: seq<Byte>, at: nat): Name
    requires at <= |b|
  {
    b[at..at + TextLength(b, at)]
  }

  function Terminated(s: Name): seq<Byte> {
    s + [0]
  }

  lemma ReadTerminated(b: seq<Byte>, at: nat, s: Name)
    requires at + |s| + 1 <= |b| && b[at..at + |s| + 1] == Terminated(s)
    ensures TextLength(b, at) == |s| && ReadText(b, at) == s
  {
    var n := TextLength(b, at);
    var w := b[at..at + |s| + 1];
    assert w[|s|] == b[at + |s|] && Terminated(s)[|s|] == 0;
    assert w[..|s|] == s && b[at..at + |s|] == w[..|s|];
    assert forall k | 0 <= k < |s| :: w[k] == s[k] && w[k] == b[at + k];
    assert n >= |s|;
  }
}
