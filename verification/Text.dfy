// Quoting, extraction and escape decoding (src/support/string.cpp).
module Text {
  import opened Bytes

  const QUOTE: Byte := 34
  const BACKSLASH: Byte := 92

  // ----- enquote -----

  function Escaped(s: seq<Byte>): seq<Byte> {
    if s == [] then []
    else (if s[0] == QUOTE then [BACKSLASH, QUOTE] else [s[0]]) + Escaped(s[1..])
  }

  function Enquoted(s: seq<Byte>): seq<Byte> {
    [QUOTE] + Escaped(s) + [QUOTE]
  }

  lemma {:induction false} EscapedSnoc(s: seq<Byte>, c: Byte)
    ensures Escaped(s + [c]) == Escaped(s) + (if c == QUOTE then [BACKSLASH, QUOTE] else [c])
  {
    if s == [] {
      assert s + [c] == [c] && [c][1..] == [];
      assert Escaped([c][1..]) == [];
    } else {
      assert (s + [c])[1..] == s[1..] + [c];
      EscapedSnoc(s[1..], c);
    }
  }

  method Enquote(s: seq<Byte>) returns (encoded: seq<Byte>)
    ensures encoded == Enquoted(s)
  {
    encoded := [QUOTE];
    for i := 0 to |s|
      invariant encoded == [QUOTE] + Escaped(s[..i])
    {
      if s[i] == QUOTE {
        encoded := encoded + [BACKSLASH];
      }
      encoded := encoded + [s[i]];
      assert s[..i + 1] == s[..i] + [s[i]];
      EscapedSnoc(s[..i], s[i]);
    }
    encoded := encoded + [QUOTE];
    assert s[..|s|] == s;
  }

  // ----- extract -----

  // Where the scan of extract stops when it is at i having counted that many backslashes.
  function ExtractEnd(s: seq<Byte>, i: nat, backs: nat): (end: nat)
    requires 0 < i <= |s|
    ensures i <= end <= |s|
    decreases |s| - i
  {
    if i == |s| then i
    else if s[i] == s[0] then
      if backs == 0 then i + 1 else ExtractEnd(s, i + 1, 0)
    else
      ExtractEnd(s, i + 1, if s[i] == BACKSLASH then backs + 1 else backs)
  }

  function Extracted(s: seq<Byte>): seq<Byte> {
    if s == [] then [] else s[..ExtractEnd(s, 1, 0)]
  }

  method Extract(s: seq<Byte>) returns (chunk: seq<Byte>)
    ensures chunk == Extracted(s)
  {
    if s == [] {
      return [];
    }
    var quote := s[0];
    chunk := [quote];
    var backs: nat := 0;
    var i := 1;
    while i < |s|
      invariant 1 <= i <= |s| && chunk == s[..i]
      invariant ExtractEnd(s, i, backs) == ExtractEnd(s, 1, 0)
    {
      chunk := chunk + [s[i]];
      assert chunk == s[..i + 1];
      if s[i] == quote && backs == 0 {
        break;
      }
      if s[i] == quote && backs != 0 {
        backs := 0;
        i := i + 1;
        continue;
      }
      if s[i] == BACKSLASH {
        backs := backs + 1;
      }
      i := i + 1;
    }
  }

  // Backslashes counted by extract after an enquoted s, when it had counted backs before.
  function Pending(s: seq<Byte>, backs: nat): nat {
    if s == [] then backs
    else Pending(s[1..], if s[0] == QUOTE then 0 else if s[0] == BACKSLASH then backs + 1 else backs)
  }

  // Every backslash of s has a quote somewhere after it.
  predicate QuoteFollowsBackslash(s: seq<Byte>) {
    forall i | 0 <= i < |s| && s[i] == BACKSLASH :: exists j :: i < j < |s| && s[j] == QUOTE
  }

  lemma {:induction false} PendingMeaning(s: seq<Byte>, backs: nat)
    ensures Pending(s, backs) == 0 <==> QuoteFollowsBackslash(s) && (backs == 0 || QUOTE in s)
  {
    if s != [] {
      var rest := s[1..];
      PendingMeaning(rest, if s[0] == QUOTE then 0 else if s[0] == BACKSLASH then backs + 1 else backs);
      assert s == [s[0]] + rest;
      if QuoteFollowsBackslash(rest) && (s[0] == BACKSLASH ==> QUOTE in rest) {
        forall i | 0 <= i < |s| && s[i] == BACKSLASH
          ensures exists j :: i < j < |s| && s[j] == QUOTE
        {
          if i == 0 {
            var j :| 0 <= j < |rest| && rest[j] == QUOTE;
            assert s[j + 1] == QUOTE;
          } else {
            var j :| i - 1 < j < |rest| && rest[j] == QUOTE;
            assert s[j + 1] == QUOTE;
          }
        }
      }
      if QuoteFollowsBackslash(s) {
        forall i | 0 <= i < |rest| && rest[i] == BACKSLASH
          ensures exists j :: i < j < |rest| && rest[j] == QUOTE
        {
          var j :| i + 1 < j < |s| && s[j] == QUOTE;
          assert rest[j - 1] == QUOTE;
        }
      }
    }
  }

  // Scanning the escaped form of s reaches its end with Pending(s, backs) backslashes counted.
  lemma {:induction false} ScanEscaped(text: seq<Byte>, at: nat, s: seq<Byte>, backs: nat)
    requires |text| > 0 && text[0] == QUOTE && 0 < at && at + |Escaped(s)| <= |text|
    requires text[at..at + |Escaped(s)|] == Escaped(s)
    ensures ExtractEnd(text, at, backs) == ExtractEnd(text, at + |Escaped(s)|, Pending(s, backs))
    decreases |s|
  {
    if s != [] {
      var first := if s[0] == QUOTE then [BACKSLASH, QUOTE] else [s[0]];
      var e := Escaped(s);
      assert e == first + Escaped(s[1..]);
      var window := text[at..at + |e|];
      assert window[0] == text[at] && (s[0] == QUOTE ==> window[1] == text[at + 1]);
      assert text[at + |first|..at + |e|] == window[|first|..] == Escaped(s[1..]);
      var backs' := if s[0] == QUOTE then 0 else if s[0] == BACKSLASH then backs + 1 else backs;
      ScanEscaped(text, at + |first|, s[1..], backs');
    }
  }

  // extract recovers an enquoted string in front of t exactly when t is empty or no backslash of
  // the string is left without a quote after it.
  lemma ExtractOfEnquoted(s: seq<Byte>, t: seq<Byte>)
    ensures Extracted(Enquoted(s) + t) == Enquoted(s) <==> t == [] || QuoteFollowsBackslash(s)
  {
    var text := Enquoted(s) + t;
    var close := 1 + |Escaped(s)|;
    assert text[1..close] == Escaped(s);
    ScanEscaped(text, 1, s, 0);
    PendingMeaning(s, 0);
    assert text[close] == QUOTE;
    var end := ExtractEnd(text, 1, 0);
    assert text[..close + 1] == Enquoted(s);
    if Pending(s, 0) == 0 {
      assert end == close + 1;
    } else {
      assert end == ExtractEnd(text, close + 1, 0);
      if t != [] {
        assert end > close + 1;
        assert |Extracted(text)| == end;
      } else {
        assert text[..end] == text == Enquoted(s);
      }
    }
  }

  // What extract takes is never shorter than the enquoted string in front.
  lemma ExtractAtLeast(s: seq<Byte>, t: seq<Byte>)
    ensures Enquoted(s) <= Extracted(Enquoted(s) + t)
  {
    var text := Enquoted(s) + t;
    var close := 1 + |Escaped(s)|;
    assert text[1..close] == Escaped(s);
    ScanEscaped(text, 1, s, 0);
    assert text[close] == QUOTE;
    assert ExtractEnd(text, 1, 0) >= close + 1;
  }

  lemma {:induction false} EscapedSame(s: seq<Byte>)
    ensures |Escaped(s)| >= |s| && (|Escaped(s)| == |s| <==> QUOTE !in s) && (QUOTE !in s ==> Escaped(s) == s)
  {
    if s != [] {
      EscapedSame(s[1..]);
      assert s == [s[0]] + s[1..];
    }
  }

  // ----- strdecode -----

  function EscapeCode(c: Byte): Byte {
    if c == 97 then 7          // a
    else if c == 98 then 8     // b
    else if c == 102 then 12   // f
    else if c == 110 then 10   // n
    else if c == 114 then 13   // r
    else if c == 116 then 9    // t
    else if c == 118 then 11   // v
    else c
  }

  function Decoded(s: seq<Byte>): seq<Byte> {
    if s == [] then []
    else if s[0] == BACKSLASH && |s| > 1 then [EscapeCode(s[1])] + Decoded(s[2..])
    else [s[0]] + Decoded(s[1..])
  }

  method StrDecode(s: seq<Byte>) returns (decoded: seq<Byte>)
    ensures decoded == Decoded(s)
  {
    decoded := [];
    var i := 0;
    while i < |s|
      invariant 0 <= i <= |s| && decoded + Decoded(s[i..]) == Decoded(s)
    {
      var c := s[i];
      var rest := s[i..];
      if c == BACKSLASH && i < |s| - 1 {
        i := i + 1;
        c := EscapeCode(s[i]);
        assert rest[2..] == s[i + 1..];
      } else {
        assert rest[1..] == s[i + 1..];
      }
      decoded := decoded + [c];
      i := i + 1;
    }
  }

  // The letter that stands for a control byte behind a backslash.
  function ControlLetter(c: Byte): Option<Byte> {
    match c
    case 7 => Some(97)     // a, the bell
    case 8 => Some(98)     // b, backspace
    case 9 => Some(116)    // t, tab
    case 10 => Some(110)   // n, newline
    case 11 => Some(118)   // v, vertical tab
    case 12 => Some(102)   // f, form feed
    case 13 => Some(114)   // r, carriage return
    case _ => None
  }

  // Every byte written so that it is meant as it is.
  function Spelled(s: seq<Byte>): seq<Byte> {
    if s == [] then []
    else
      (match ControlLetter(s[0])
       case Some(letter) => [BACKSLASH, letter]
       case None => if s[0] == QUOTE || s[0] == BACKSLASH then [BACKSLASH, s[0]] else [s[0]]) + Spelled(s[1..])
  }

  // Any text can be spelled so that decoding gives it back, control bytes, quotes and backslashes
  // included.
  lemma {:induction false} SpellingDecoded(s: seq<Byte>)
    ensures Decoded(Spelled(s)) == s
  {
    if s != [] {
      hide Decoded;
      var rest := Spelled(s[1..]);
      SpellingDecoded(s[1..]);
      assert s == [s[0]] + s[1..];
      match ControlLetter(s[0]) {
        case Some(letter) => DecodedPair(letter, rest);
        case None =>
          if s[0] == QUOTE || s[0] == BACKSLASH {
            DecodedPair(s[0], rest);
          } else {
            DecodedPlain(s[0], rest);
          }
      }
    }
  }

  // A backslash in front of any other byte is dropped.
  lemma OtherEscape(c: Byte, rest: seq<Byte>)
    requires forall control: Byte :: ControlLetter(control) != Some(c)
    ensures Decoded([BACKSLASH, c] + rest) == [c] + Decoded(rest)
  {
    hide Decoded;
    DecodedPair(c, rest);
    assert ControlLetter(7) != Some(c) && ControlLetter(8) != Some(c) && ControlLetter(9) != Some(c) && ControlLetter(10) != Some(c);
    assert ControlLetter(11) != Some(c) && ControlLetter(12) != Some(c) && ControlLetter(13) != Some(c);
  }

  // No backslash of s except one at its very end or right before a quote.
  predicate DecodesToItself(s: seq<Byte>) {
    forall i | 0 <= i < |s| && s[i] == BACKSLASH :: i == |s| - 1 || s[i + 1] == QUOTE
  }

  lemma DecodedPlain(c: Byte, rest: seq<Byte>)
    requires c != BACKSLASH || rest == []
    ensures Decoded([c] + rest) == [c] + Decoded(rest)
  {
    assert ([c] + rest)[1..] == rest;
  }

  lemma DecodedPair(c: Byte, rest: seq<Byte>)
    ensures Decoded([BACKSLASH, c] + rest) == [EscapeCode(c)] + Decoded(rest)
  {
    assert ([BACKSLASH, c] + rest)[2..] == rest;
  }

  lemma EscapedStep(c: Byte, rest: seq<Byte>)
    ensures Escaped([c] + rest) == (if c == QUOTE then [BACKSLASH, QUOTE] else [c]) + Escaped(rest)
  {
    assert ([c] + rest)[1..] == rest;
  }

  // Decoding the escaped form of c followed by rest, when c is not an active backslash.
  lemma DecodedStep(c: Byte, rest: seq<Byte>)
    requires c != BACKSLASH || rest == []
    ensures Decoded(Escaped([c] + rest)) == [c] + Decoded(Escaped(rest))
  {
    hide Decoded;
    EscapedStep(c, rest);
    if c == QUOTE {
      DecodedPair(QUOTE, Escaped(rest));
    } else {
      DecodedPlain(c, Escaped(rest));
    }
  }

  // Decoding the escaped form of a backslash, c and rest.
  lemma DecodedBackslash(c: Byte, rest: seq<Byte>)
    ensures Decoded(Escaped([BACKSLASH, c] + rest)) ==
            (if c == QUOTE then [BACKSLASH, QUOTE] else [EscapeCode(c)]) + Decoded(Escaped(rest))
  {
    hide Decoded, Escaped;
    var e := Escaped(rest);
    assert [BACKSLASH, c] + rest == [BACKSLASH] + ([c] + rest);
    EscapedStep(BACKSLASH, [c] + rest);
    EscapedStep(c, rest);
    if c == QUOTE {
      assert [BACKSLASH] + ([BACKSLASH, QUOTE] + e) == [BACKSLASH, BACKSLASH] + ([QUOTE] + e);
      DecodedPair(BACKSLASH, [QUOTE] + e);
      DecodedPlain(QUOTE, e);
      assert [BACKSLASH] + ([QUOTE] + Decoded(e)) == [BACKSLASH, QUOTE] + Decoded(e);
    } else {
      assert [BACKSLASH] + ([c] + e) == [BACKSLASH, c] + e;
      DecodedPair(c, e);
    }
  }

  // Decoding never makes the escaped text longer than the original, and keeps the length exactly
  // for the strings it gives back.
  lemma {:induction false} DecodedLength(s: seq<Byte>)
    ensures |Decoded(Escaped(s))| <= |s|
    ensures |Decoded(Escaped(s))| == |s| <==> DecodesToItself(s)
    ensures DecodesToItself(s) ==> Decoded(Escaped(s)) == s
    decreases |s|
  {
    if s != [] {
      var rest := s[1..];
      assert s == [s[0]] + rest;
      if s[0] != BACKSLASH || rest == [] {
        DecodedStep(s[0], rest);
        DecodedLength(rest);
        ShiftedDecodes(s);
      } else {
        assert s == [BACKSLASH, rest[0]] + rest[1..];
        DecodedBackslash(rest[0], rest[1..]);
        DecodedLength(rest[1..]);
        if rest[0] == QUOTE {
          ShiftedDecodes(s);
          ShiftedDecodes(rest);
        } else {
          assert s[0] == BACKSLASH && s[1] != QUOTE;
        }
      }
    }
  }

  lemma ShiftedDecodes(s: seq<Byte>)
    requires s != [] && (s[0] == BACKSLASH ==> |s| == 1 || s[1] == QUOTE)
    ensures DecodesToItself(s) <==> DecodesToItself(s[1..])
  {
    var rest := s[1..];
    if DecodesToItself(rest) {
      forall i | 0 <= i < |s| && s[i] == BACKSLASH
        ensures i == |s| - 1 || s[i + 1] == QUOTE
      {
        if i > 0 {
          assert rest[i - 1] == BACKSLASH;
        }
      }
    }
    if DecodesToItself(s) {
      forall i | 0 <= i < |rest| && rest[i] == BACKSLASH
        ensures i == |rest| - 1 || rest[i + 1] == QUOTE
      {
        assert s[i + 1] == BACKSLASH;
      }
    }
  }

  // Decoding the inside of an enquoted string gives the string back exactly when each of its
  // backslashes is last or stands right before a quote.
  lemma DecodeOfEnquoted(s: seq<Byte>)
    ensures Decoded(Enquoted(s)[1..|Enquoted(s)| - 1]) == s <==> DecodesToItself(s)
  {
    assert Enquoted(s)[1..|Enquoted(s)| - 1] == Escaped(s);
    DecodedLength(s);
  }

  // The common case: text without backslashes survives quoting, extraction and decoding in front
  // of anything.
  lemma QuotingRoundTrip(s: seq<Byte>, t: seq<Byte>)
    requires BACKSLASH !in s
    ensures var q := Extracted(Enquoted(s) + t);
            |q| >= 2 && q == Enquoted(s) && Decoded(q[1..|q| - 1]) == s
  {
    ExtractOfEnquoted(s, t);
    DecodeOfEnquoted(s);
  }

  // A string of one backslash: what follows the literal is taken for a part of it.
  lemma LoneBackslash()
    ensures Extracted(Enquoted([BACKSLASH]) + [32]) != Enquoted([BACKSLASH])
  {
    ExtractOfEnquoted([BACKSLASH], [32]);
    assert !QuoteFollowsBackslash([BACKSLASH]);
  }

  // A backslash and an n: they come back as one newline.
  lemma BackslashLetter()
    ensures Decoded(Enquoted([BACKSLASH, 110])[1..3]) == [10]
  {
    assert [BACKSLASH, 110][1..] == [110] && [110][1..] == [];
    assert Escaped([110]) == [110] + Escaped([]);
    assert Enquoted([BACKSLASH, 110])[1..3] == [BACKSLASH, 110];
    assert [BACKSLASH, 110][2..] == [];
    assert Decoded([BACKSLASH, 110]) == [EscapeCode(110)] + Decoded([]);
  }
}
