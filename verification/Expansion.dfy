// Nested source forms and their expansion to flat lines (src/front/asm/decode.cpp).
module Expansion {
  import opened Bytes

  datatype Tok =
    | Invert                  // ^
    | Open | Close            // ( )
    | OpenList | CloseList    // [ ]
    | Word(text: Name)
    | Number(n: nat)          // the number of subexpressions of a list

  type Toks = seq<Tok>

  // ----- what the loops compute -----

  // The tokens up to where the parentheses are balanced, and those behind.
  function TakeGroup(s: Toks, balance: int): (r: (Toks, Toks))
    ensures |r.0| <= |s| && |r.1| <= |s|
  {
    if s == [] then ([], [])
    else
      var b := balance + (if s[0] == Open then 1 else if s[0] == Close then -1 else 0);
      if b == 0 then ([], s[1..])
      else
        var r := TakeGroup(s[1..], b);
        ([s[0]] + r.0, r.1)
  }

  // The same for brackets, counting the parentheses that open at depth 0.
  function TakeList(s: Toks, balance: int, depth: int, len: nat): (r: (Toks, Toks, nat))
    ensures |r.0| <= |s| && |r.1| <= |s|
  {
    if s == [] then ([], [], len)
    else
      var b := balance + (if s[0] == OpenList then 1 else if s[0] == CloseList then -1 else 0);
      var d := depth + (if s[0] == Open then 1 else if s[0] == Close then -1 else 0);
      var l := if s[0] == Open && d == 1 then len + 1 else len;
      if b == 0 then ([], s[1..], l)
      else
        var r := TakeList(s[1..], b, d, l);
        ([s[0]] + r.0, r.1, r.2)
  }

  function Finished(decoded: seq<Toks>, main: Toks, invert: bool): seq<Toks> {
    if invert then [main] + decoded else decoded + [main]
  }

  // None is an access behind the end of a line.
  function DecodeFrom(s: Toks, decoded: seq<Toks>, main: Toks, invert: bool): (r: Option<seq<Toks>>)
    ensures r.Some? ==> r.value != []
    decreases |s|, 0
  {
    if s == [] then Some(Finished(decoded, main, invert))
    else if s[0] == Invert then DecodeFrom(s[1..], decoded, main, true)
    else if s[0] == Open then
      var g := TakeGroup(s[1..], 1);
      match Decode(g.0)
      case None => None
      case Some(lines) =>
        var last := lines[|lines| - 1];
        if |last| < 2 then None else DecodeFrom(g.1, decoded + lines, main + [last[1]], invert)
    else if s[0] == OpenList then
      var l := TakeList(s[1..], 1, 0, 0);
      match Decode(l.0)
      case None => None
      case Some(lines) => DecodeFrom(l.1, decoded + lines[..|lines| - 1], main + [Number(l.2)], invert)
    else DecodeFrom(s[1..], decoded, main + [s[0]], invert)
  }

  function Decode(s: Toks): (r: Option<seq<Toks>>)
    ensures r.Some? ==> r.value != []
    decreases |s|, 1
  {
    DecodeFrom(s, [], [], false)
  }

  function From(tokens: Toks, i: nat): Toks {
    if i <= |tokens| then tokens[i..] else []
  }

  lemma FromStep(tokens: Toks, i: nat)
    requires i < |tokens|
    ensures From(tokens, i) == [tokens[i]] + From(tokens, i + 1)
  {
  }

  lemma GroupStep(tok: Tok, balance: int, tail: Toks)
    ensures var b := balance + (if tok == Open then 1 else if tok == Close then -1 else 0);
            var t := TakeGroup(tail, b);
            TakeGroup([tok] + tail, balance) == if b == 0 then ([], tail) else ([tok] + t.0, t.1)
  {
    assert ([tok] + tail)[1..] == tail;
  }

  lemma ListStep(tok: Tok, balance: int, depth: int, len: nat, tail: Toks)
    ensures var b := balance + (if tok == OpenList then 1 else if tok == CloseList then -1 else 0);
            var d := depth + (if tok == Open then 1 else if tok == Close then -1 else 0);
            var l := if tok == Open && d == 1 then len + 1 else len;
            var t := TakeList(tail, b, d, l);
            TakeList([tok] + tail, balance, depth, len) == if b == 0 then ([], tail, l) else ([tok] + t.0, t.1, t.2)
  {
    assert ([tok] + tail)[1..] == tail;
  }

  function AfterParen(tok: Tok, balance: int): int {
    balance + (if tok == Open then 1 else if tok == Close then -1 else 0)
  }

  function AfterBracket(tok: Tok, balance: int): int {
    balance + (if tok == OpenList then 1 else if tok == CloseList then -1 else 0)
  }

  // Position i is reached with the tokens sub taken.
  predicate GroupSoFar(tokens: Toks, start: nat, i: nat, balance: int, sub: Toks) {
    TakeGroup(From(tokens, start), 1) == (sub + TakeGroup(From(tokens, i), balance).0, TakeGroup(From(tokens, i), balance).1)
  }

  lemma GroupAdvances(tokens: Toks, start: nat, i: nat, balance: int, sub: Toks)
    requires i < |tokens| && GroupSoFar(tokens, start, i, balance, sub)
    ensures var b := AfterParen(tokens[i], balance);
            if b == 0 then TakeGroup(From(tokens, start), 1) == (sub, From(tokens, i + 1))
            else GroupSoFar(tokens, start, i + 1, b, sub + [tokens[i]])
  {
    hide TakeGroup;
    FromStep(tokens, i);
    GroupStep(tokens[i], balance, From(tokens, i + 1));
    var t := TakeGroup(From(tokens, i + 1), AfterParen(tokens[i], balance));
    assert sub + ([tokens[i]] + t.0) == (sub + [tokens[i]]) + t.0;
    assert sub + [] == sub;
  }

  lemma GroupEnds(tokens: Toks, start: nat, i: nat, balance: int, sub: Toks)
    requires i == |tokens| && GroupSoFar(tokens, start, i, balance, sub)
    ensures TakeGroup(From(tokens, start), 1) == (sub, From(tokens, i + 1))
  {
    assert From(tokens, i) == [];
    assert sub + [] == sub;
  }

  // The subexpression that opens before position start, and where it closes.
  method Group(tokens: Toks, start: nat) returns (subtokens: Toks, i: nat)
    requires start <= |tokens|
    ensures (subtokens, From(tokens, i + 1)) == TakeGroup(From(tokens, start), 1)
    ensures start <= i <= |tokens| && |subtokens| == i - start
  {
    hide GroupSoFar;
    subtokens, i := [], start;
    var balance := 1;
    GroupBegins(tokens, start);
    while i < |tokens|
      invariant start <= i <= |tokens| && |subtokens| == i - start
      invariant GroupSoFar(tokens, start, i, balance, subtokens)
    {
      GroupAdvances(tokens, start, i, balance, subtokens);
      if tokens[i] == Open {
        balance := balance + 1;
      }
      if tokens[i] == Close {
        balance := balance - 1;
      }
      if balance == 0 {
        return;
      }
      subtokens := subtokens + [tokens[i]];
      i := i + 1;
    }
    GroupEnds(tokens, start, i, balance, subtokens);
  }

  lemma GroupBegins(tokens: Toks, start: nat)
    ensures GroupSoFar(tokens, start, start, 1, [])
  {
    assert [] + TakeGroup(From(tokens, start), 1).0 == TakeGroup(From(tokens, start), 1).0;
  }

  predicate ListSoFar(tokens: Toks, start: nat, i: nat, balance: int, depth: int, len: nat, sub: Toks) {
    var t := TakeList(From(tokens, i), balance, depth, len);
    TakeList(From(tokens, start), 1, 0, 0) == (sub + t.0, t.1, t.2)
  }

  lemma ListAdvances(tokens: Toks, start: nat, i: nat, balance: int, depth: int, len: nat, sub: Toks)
    requires i < |tokens| && ListSoFar(tokens, start, i, balance, depth, len, sub)
    ensures var b, d := AfterBracket(tokens[i], balance), AfterParen(tokens[i], depth);
            var l := if tokens[i] == Open && d == 1 then len + 1 else len;
            if b == 0 then TakeList(From(tokens, start), 1, 0, 0) == (sub, From(tokens, i + 1), l)
            else ListSoFar(tokens, start, i + 1, b, d, l, sub + [tokens[i]])
  {
    hide TakeList, From;
    FromStep(tokens, i);
    ListStep(tokens[i], balance, depth, len, From(tokens, i + 1));
    var b, d := AfterBracket(tokens[i], balance), AfterParen(tokens[i], depth);
    var t := TakeList(From(tokens, i + 1), b, d, if tokens[i] == Open && d == 1 then len + 1 else len);
    Regrouped(sub, tokens[i], t.0);
  }

  lemma Regrouped(sub: Toks, tok: Tok, t: Toks)
    ensures sub + ([tok] + t) == (sub + [tok]) + t && sub + [] == sub
  {
  }

  lemma ListEnds(tokens: Toks, start: nat, i: nat, balance: int, depth: int, len: nat, sub: Toks)
    requires i == |tokens| && ListSoFar(tokens, start, i, balance, depth, len, sub)
    ensures TakeList(From(tokens, start), 1, 0, 0) == (sub, From(tokens, i + 1), len)
  {
    assert From(tokens, i) == [];
    assert sub + [] == sub;
  }

  lemma ListBegins(tokens: Toks, start: nat)
    ensures ListSoFar(tokens, start, start, 1, 0, 0, [])
  {
    assert [] + TakeList(From(tokens, start), 1, 0, 0).0 == TakeList(From(tokens, start), 1, 0, 0).0;
  }

  // The list that opens before position start, where it closes, and how many subexpressions it has.
  method List(tokens: Toks, start: nat) returns (subtokens: Toks, i: nat, len: nat)
    requires start <= |tokens|
    ensures (subtokens, From(tokens, i + 1), len) == TakeList(From(tokens, start), 1, 0, 0)
    ensures start <= i <= |tokens| && |subtokens| == i - start
  {
    hide ListSoFar;
    subtokens, i, len := [], start, 0;
    var balance, depth := 1, 0;
    ListBegins(tokens, start);
    while i < |tokens|
      invariant start <= i <= |tokens| && |subtokens| == i - start
      invariant ListSoFar(tokens, start, i, balance, depth, len, subtokens)
    {
      ListAdvances(tokens, start, i, balance, depth, len, subtokens);
      if tokens[i] == OpenList {
        balance := balance + 1;
      }
      if tokens[i] == CloseList {
        balance := balance - 1;
      }
      if tokens[i] == Open {
        depth := depth + 1;
        if depth == 1 {
          len := len + 1;
        }
      }
      if tokens[i] == Close {
        depth := depth - 1;
      }
      if balance == 0 {
        return;
      }
      subtokens := subtokens + [tokens[i]];
      i := i + 1;
    }
    ListEnds(tokens, start, i, balance, depth, len, subtokens);
  }

  lemma DecodeStep(tok: Tok, tail: Toks, decoded: seq<Toks>, main: Toks, invert: bool)
    ensures DecodeFrom([tok] + tail, decoded, main, invert) ==
            if tok == Invert then DecodeFrom(tail, decoded, main, true)
            else if tok == Open then
              var g := TakeGroup(tail, 1);
              match Decode(g.0)
              case None => None
              case Some(lines) =>
                var last := lines[|lines| - 1];
                if |last| < 2 then None else DecodeFrom(g.1, decoded + lines, main + [last[1]], invert)
            else if tok == OpenList then
              var l := TakeList(tail, 1, 0, 0);
              match Decode(l.0)
              case None => None
              case Some(lines) => DecodeFrom(l.1, decoded + lines[..|lines| - 1], main + [Number(l.2)], invert)
            else DecodeFrom(tail, decoded, main + [tok], invert)
  {
    hide TakeGroup, TakeList, Decode;
    assert ([tok] + tail)[1..] == tail;
  }

  lemma DecodeEnd(decoded: seq<Toks>, main: Toks, invert: bool)
    ensures DecodeFrom([], decoded, main, invert) == Some(Finished(decoded, main, invert))
  {
  }

  // decode_line_tokens
  method DecodeLineTokens(tokens: Toks) returns (r: Option<seq<Toks>>)
    ensures r == Decode(tokens)
    decreases |tokens|
  {
    hide TakeGroup, TakeList, DecodeFrom;
    var decoded: seq<Toks>, main: Toks, i: nat, invert := [], [], 0, false;
    assert From(tokens, 0) == tokens;
    while i < |tokens|
      invariant i <= |tokens| + 1
      invariant DecodeFrom(From(tokens, i), decoded, main, invert) == Decode(tokens)
    {
      FromStep(tokens, i);
      DecodeStep(tokens[i], From(tokens, i + 1), decoded, main, invert);
      if tokens[i] == Invert {
        invert := true;
        i := i + 1;
      } else if tokens[i] == Open {
        var subtokens, end := Group(tokens, i + 1);
        var sublines := DecodeLineTokens(subtokens);
        if sublines.None? {
          return None;
        }
        var last := sublines.value[|sublines.value| - 1];
        if |last| < 2 {
          return None;
        }
        decoded := decoded + sublines.value;
        main := main + [last[1]];
        i := end + 1;
      } else if tokens[i] == OpenList {
        var subtokens, end, len := List(tokens, i + 1);
        var sublines := DecodeLineTokens(subtokens);
        if sublines.None? {
          return None;
        }
        decoded := decoded + sublines.value[..|sublines.value| - 1];
        main := main + [Number(len)];
        i := end + 1;
      } else {
        main := main + [tokens[i]];
        i := i + 1;
      }
    }
    assert From(tokens, i) == [];
    DecodeEnd(decoded, main, invert);
    r := Some(if invert then [main] + decoded else decoded + [main]);
  }

  // ----- nested source -----

  datatype Item =
    | Leaf(word: Name)
    | Group(items: seq<Item>)
    | List(items: seq<Item>)

  function FlatItem(x: Item): Toks {
    match x
    case Leaf(w) => [Word(w)]
    case Group(items) => [Open] + Flat(items) + [Close]
    case List(items) => [OpenList] + Flat(items) + [CloseList]
  }

  function Flat(items: seq<Item>): Toks {
    if items == [] then [] else FlatItem(items[0]) + Flat(items[1..])
  }

  // The subexpressions of a list: its groups, and those of the lists in it.
  function Count(items: seq<Item>): nat {
    if items == [] then 0
    else
      (match items[0]
       case Leaf(_) => 0
       case Group(_) => 1
       case List(inner) => Count(inner)) + Count(items[1..])
  }

  // Every group has a mnemonic and a destination.
  predicate WellFormed(items: seq<Item>) {
    items == [] ||
    ((match items[0]
      case Leaf(_) => true
      case Group(inner) => |inner| >= 2 && WellFormed(inner)
      case List(inner) => WellFormed(inner)) && WellFormed(items[1..]))
  }

  // What stands for an item in the line around it: a group's destination, a list's count.
  function Stand(x: Item): Tok {
    match x
    case Leaf(w) => Word(w)
    case Group(items) => if |items| >= 2 then Stand(items[1]) else Word([])
    case List(items) => Number(Count(items))
  }

  function Stands(items: seq<Item>): (r: Toks)
    ensures |r| == |items|
  {
    if items == [] then [] else [Stand(items[0])] + Stands(items[1..])
  }

  // The lines of nested groups, inner groups first, from left to right.
  function Lines(items: seq<Item>): seq<Toks> {
    if items == [] then []
    else
      (match items[0]
       case Leaf(_) => []
       case Group(inner) => Lines(inner) + [Stands(inner)]
       case List(inner) => Lines(inner)) + Lines(items[1..])
  }

  lemma {:induction false} StandsAt(items: seq<Item>, k: nat)
    requires k < |items|
    ensures Stands(items)[k] == Stand(items[k])
  {
    if k > 0 {
      StandsAt(items[1..], k - 1);
    }
  }

  // ----- balanced text is taken as a whole -----

  lemma {:induction false} GroupThrough(items: seq<Item>, balance: nat, tail: Toks)
    requires balance > 0
    ensures var r, t := TakeGroup(Flat(items) + tail, balance), TakeGroup(tail, balance);
            r == (Flat(items) + t.0, t.1)
  {
    if items == [] {
      assert Flat(items) + tail == tail;
      assert Flat(items) + TakeGroup(tail, balance).0 == TakeGroup(tail, balance).0;
    } else {
      var rest := Flat(items[1..]) + tail;
      assert Flat(items) + tail == FlatItem(items[0]) + rest;
      GroupThroughItem(items[0], balance, rest);
      GroupThrough(items[1..], balance, tail);
      var t := TakeGroup(tail, balance);
      assert FlatItem(items[0]) + (Flat(items[1..]) + t.0) == Flat(items) + t.0;
    }
  }

  lemma {:induction false} GroupThroughItem(x: Item, balance: nat, tail: Toks)
    requires balance > 0
    ensures var r, t := TakeGroup(FlatItem(x) + tail, balance), TakeGroup(tail, balance);
            r == (FlatItem(x) + t.0, t.1)
  {
    hide TakeGroup, Flat;
    var t := TakeGroup(tail, balance);
    match x {
      case Leaf(w) => GroupStep(Word(w), balance, tail);
      case Group(items) =>
        var after := [Close] + tail;
        assert FlatItem(x) + tail == [Open] + (Flat(items) + after);
        GroupStep(Open, balance, Flat(items) + after);
        GroupThrough(items, balance + 1, after);
        GroupStep(Close, balance + 1, tail);
        assert [Open] + (Flat(items) + ([Close] + t.0)) == FlatItem(x) + t.0;
      case List(items) =>
        var after := [CloseList] + tail;
        assert FlatItem(x) + tail == [OpenList] + (Flat(items) + after);
        GroupStep(OpenList, balance, Flat(items) + after);
        GroupThrough(items, balance, after);
        GroupStep(CloseList, balance, tail);
        assert [OpenList] + (Flat(items) + ([CloseList] + t.0)) == FlatItem(x) + t.0;
    }
  }

  // How many parentheses open at depth 0 in the items, when they start at the given depth.
  function Opened(items: seq<Item>, depth: nat): nat {
    if depth == 0 then Count(items) else 0
  }

  lemma {:induction false} ListThrough(items: seq<Item>, balance: nat, depth: nat, len: nat, tail: Toks)
    requires balance > 0
    ensures var r, t := TakeList(Flat(items) + tail, balance, depth, len),
                        TakeList(tail, balance, depth, len + Opened(items, depth));
            r == (Flat(items) + t.0, t.1, t.2)
    decreases items
  {
    hide TakeList, Count;
    if items == [] {
      CountNothing();
      assert Flat(items) + tail == tail;
      var t := TakeList(tail, balance, depth, len);
      assert Flat(items) + t.0 == t.0;
    } else {
      var rest := Flat(items[1..]) + tail;
      assert Flat(items) + tail == FlatItem(items[0]) + rest;
      ListThroughItem(items[0], balance, depth, len, rest);
      var here := Opened([items[0]], depth);
      CountFirst(items);
      ListThrough(items[1..], balance, depth, len + here, tail);
      var t := TakeList(tail, balance, depth, len + Opened(items, depth));
      assert FlatItem(items[0]) + (Flat(items[1..]) + t.0) == Flat(items) + t.0;
    }
  }

  lemma CountNothing()
    ensures Count([]) == 0
  {
  }

  lemma CountOne(x: Item)
    ensures Count([x]) == match x case Leaf(_) => 0 case Group(_) => 1 case List(inner) => Count(inner)
  {
    assert [x][1..] == [];
  }

  lemma CountFirst(items: seq<Item>)
    requires items != []
    ensures Count(items) == Count([items[0]]) + Count(items[1..])
  {
    assert [items[0]][1..] == [];
  }

  lemma Around(open: Tok, inner: Toks, close: Tok, t: Toks)
    ensures [open] + inner + [close] + t == [open] + (inner + ([close] + t))
  {
  }

  lemma {:induction false} ListThroughItem(x: Item, balance: nat, depth: nat, len: nat, tail: Toks)
    requires balance > 0
    ensures var r, t := TakeList(FlatItem(x) + tail, balance, depth, len),
                        TakeList(tail, balance, depth, len + Opened([x], depth));
            r == (FlatItem(x) + t.0, t.1, t.2)
    decreases x
  {
    hide TakeList, Flat, Count;
    CountOne(x);
    var l := len + Opened([x], depth);
    var t := TakeList(tail, balance, depth, l);
    match x {
      case Leaf(w) => ListStep(Word(w), balance, depth, len, tail);
      case Group(items) =>
        var after := [Close] + tail;
        Around(Open, Flat(items), Close, tail);
        Around(Open, Flat(items), Close, t.0);
        ListStep(Open, balance, depth, len, Flat(items) + after);
        ListThrough(items, balance, depth + 1, l, after);
        ListStep(Close, balance, depth + 1, l, tail);
      case List(items) =>
        var after := [CloseList] + tail;
        Around(OpenList, Flat(items), CloseList, tail);
        Around(OpenList, Flat(items), CloseList, t.0);
        ListStep(OpenList, balance, depth, len, Flat(items) + after);
        ListThrough(items, balance + 1, depth, len, after);
        ListStep(CloseList, balance + 1, depth, l, tail);
    }
  }

  lemma GroupTaken(items: seq<Item>, tail: Toks)
    ensures TakeGroup(Flat(items) + ([Close] + tail), 1) == (Flat(items), tail)
  {
    GroupThrough(items, 1, [Close] + tail);
    GroupStep(Close, 1, tail);
    assert Flat(items) + [] == Flat(items);
  }

  lemma ListTaken(items: seq<Item>, tail: Toks)
    ensures TakeList(Flat(items) + ([CloseList] + tail), 1, 0, 0) == (Flat(items), tail, Count(items))
  {
    ListThrough(items, 1, 0, 0, [CloseList] + tail);
    ListStep(CloseList, 1, 0, Count(items), tail);
    assert Flat(items) + [] == Flat(items);
  }

  // ----- the expansion -----

  lemma DecodeGroup(items: seq<Item>, tail: Toks, decoded: seq<Toks>, main: Toks, invert: bool)
    ensures DecodeFrom([Open] + (Flat(items) + ([Close] + tail)), decoded, main, invert) ==
            match Decode(Flat(items))
            case None => None
            case Some(lines) =>
              var last := lines[|lines| - 1];
              if |last| < 2 then None else DecodeFrom(tail, decoded + lines, main + [last[1]], invert)
  {
    hide TakeGroup, TakeList, DecodeFrom;
    DecodeStep(Open, Flat(items) + ([Close] + tail), decoded, main, invert);
    GroupTaken(items, tail);
  }

  lemma DecodeList(items: seq<Item>, tail: Toks, decoded: seq<Toks>, main: Toks, invert: bool)
    ensures DecodeFrom([OpenList] + (Flat(items) + ([CloseList] + tail)), decoded, main, invert) ==
            match Decode(Flat(items))
            case None => None
            case Some(lines) => DecodeFrom(tail, decoded + lines[..|lines| - 1], main + [Number(Count(items))], invert)
  {
    hide TakeGroup, TakeList, DecodeFrom;
    DecodeStep(OpenList, Flat(items) + ([CloseList] + tail), decoded, main, invert);
    ListTaken(items, tail);
  }

  // How the inside of an item is decoded.
  predicate DecodesInside(x: Item) {
    !x.Leaf? ==>
      Decode(Flat(x.items)) == if WellFormed(x.items) then Some(Lines(x.items) + [Stands(x.items)]) else None
  }

  lemma GroupItem(inner: seq<Item>, rest: Toks, decoded: seq<Toks>, main: Toks, invert: bool)
    requires DecodesInside(Item.Group(inner))
    ensures DecodeFrom(FlatItem(Item.Group(inner)) + rest, decoded, main, invert) ==
            if |inner| >= 2 && WellFormed(inner)
            then DecodeFrom(rest, decoded + (Lines(inner) + [Stands(inner)]), main + [Stand(Item.Group(inner))], invert)
            else None
  {
    hide TakeGroup, TakeList, DecodeFrom, Decode, Lines, Stands, WellFormed, Flat;
    assert FlatItem(Item.Group(inner)) + rest == [Open] + (Flat(inner) + ([Close] + rest));
    DecodeGroup(inner, rest, decoded, main, invert);
    if |inner| >= 2 {
      StandsAt(inner, 1);
    }
  }

  lemma ListItem(inner: seq<Item>, rest: Toks, decoded: seq<Toks>, main: Toks, invert: bool)
    requires DecodesInside(Item.List(inner))
    ensures DecodeFrom(FlatItem(Item.List(inner)) + rest, decoded, main, invert) ==
            if WellFormed(inner)
            then DecodeFrom(rest, decoded + Lines(inner), main + [Number(Count(inner))], invert) else None
  {
    hide TakeGroup, TakeList, DecodeFrom, Decode, Lines, Stands, WellFormed, Flat, Count;
    assert FlatItem(Item.List(inner)) + rest == [OpenList] + (Flat(inner) + ([CloseList] + rest));
    DecodeList(inner, rest, decoded, main, invert);
    assert (Lines(inner) + [Stands(inner)])[..|Lines(inner)|] == Lines(inner);
  }

  // Decoding one item in front of more tokens.
  lemma DecodeItem(x: Item, rest: Toks, decoded: seq<Toks>, main: Toks, invert: bool)
    requires DecodesInside(x)
    ensures DecodeFrom(FlatItem(x) + rest, decoded, main, invert) ==
            if WellFormed([x]) then DecodeFrom(rest, decoded + Lines([x]), main + [Stand(x)], invert) else None
  {
    hide TakeGroup, TakeList, DecodeFrom, Decode, Lines, Stands, WellFormed, Flat, Count, DecodesInside;
    OneItem(x);
    match x {
      case Leaf(w) =>
        DecodeStep(Word(w), rest, decoded, main, invert);
        assert decoded + [] == decoded;
      case Group(inner) => GroupItem(inner, rest, decoded, main, invert);
      case List(inner) => ListItem(inner, rest, decoded, main, invert);
    }
  }

  lemma OneItem(x: Item)
    ensures Lines([x]) == match x case Leaf(_) => [] case Group(i) => Lines(i) + [Stands(i)] case List(i) => Lines(i)
    ensures WellFormed([x]) <==> match x
                                 case Leaf(_) => true
                                 case Group(i) => |i| >= 2 && WellFormed(i)
                                 case List(i) => WellFormed(i)
  {
    assert [x][1..] == [];
  }

  lemma FirstItem(items: seq<Item>)
    requires items != []
    ensures Lines(items) == Lines([items[0]]) + Lines(items[1..])
    ensures Stands(items) == [Stand(items[0])] + Stands(items[1..])
    ensures WellFormed(items) <==> WellFormed([items[0]]) && WellFormed(items[1..])
    ensures Flat(items) == FlatItem(items[0]) + Flat(items[1..])
  {
    OneItem(items[0]);
  }

  // Decoding items in front of more tokens adds their lines, and what stands for them.
  lemma {:induction false} DecodeItems(items: seq<Item>, tail: Toks, decoded: seq<Toks>, main: Toks, invert: bool)
    ensures DecodeFrom(Flat(items) + tail, decoded, main, invert) ==
            if WellFormed(items) then DecodeFrom(tail, decoded + Lines(items), main + Stands(items), invert) else None
    decreases items, 0
  {
    hide DecodeFrom, Decode, WellFormed, FlatItem;
    if items == [] {
      NoItems();
      assert Flat(items) + tail == tail && decoded + Lines(items) == decoded && main + Stands(items) == main;
    } else {
      hide Lines, Stands, Flat, Stand;
      var x, more := items[0], items[1..];
      var rest := Flat(more) + tail;
      FirstItem(items);
      assert Flat(items) + tail == FlatItem(x) + rest;
      if !x.Leaf? {
        DecodeFlat(x.items);
      }
      DecodeItem(x, rest, decoded, main, invert);
      DecodeItems(more, tail, decoded + Lines([x]), main + [Stand(x)], invert);
      assert (decoded + Lines([x])) + Lines(more) == decoded + Lines(items);
      assert (main + [Stand(x)]) + Stands(more) == main + Stands(items);
    }
  }

  lemma NoItems()
    ensures WellFormed([]) && Lines([]) == [] && Stands([]) == [] && Flat([]) == []
  {
  }

  // Without ^ the lines of nested groups come first, and the line itself last.
  lemma {:induction false} DecodeFlat(items: seq<Item>)
    ensures Decode(Flat(items)) == if WellFormed(items) then Some(Lines(items) + [Stands(items)]) else None
    decreases items, 1
  {
    hide TakeGroup, TakeList;
    DecodeItems(items, [], [], [], false);
    assert Flat(items) + [] == Flat(items);
    assert [] + Lines(items) == Lines(items) && [] + Stands(items) == Stands(items);
  }

  // Expansion, with ^ anywhere on the outermost level or nowhere: the lines of nested groups in
  // post-order, with every group replaced by its destination and every list by its count, and the
  // line itself behind them or, with ^, in front; undefined exactly when a group has no destination.
  lemma ExpansionIsCorrect(before: seq<Item>, inverted: bool, after: seq<Item>)
    ensures var lines, main := Lines(before) + Lines(after), Stands(before) + Stands(after);
            Decode(Flat(before) + (if inverted then [Invert] else []) + Flat(after)) ==
            if !WellFormed(before) || !WellFormed(after) then None
            else Some(if inverted then [main] + lines else lines + [main])
  {
    hide TakeGroup, TakeList;
    var mark: Toks := if inverted then [Invert] else [];
    assert Flat(before) + mark + Flat(after) == Flat(before) + (mark + Flat(after));
    DecodeItems(before, mark + Flat(after), [], [], false);
    assert [] + Lines(before) == Lines(before) && [] + Stands(before) == Stands(before);
    if inverted {
      DecodeStep(Invert, Flat(after), Lines(before), Stands(before), false);
    } else {
      assert mark + Flat(after) == Flat(after);
    }
    DecodeItems(after, [], Lines(before), Stands(before), inverted);
    assert Flat(after) + [] == Flat(after);
  }
}
