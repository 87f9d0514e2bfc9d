/**
 The frame in which a subscription hands a request to its floodsub node: a tag, a string, an optional
 list of strings and optional data, each with a 32-bit length. Strings are their bytes, and not all bytes
 are strings.
 */
module FloodsubApiFrame {
  import opened Bytes
  import opened Utf8
  import opened Wrappers

  datatype Flag = Unsubscribe | DeadPeers | Publish

  datatype Request = Request(flag: Flag, text: Option<seq<byte>>, list: Option<seq<seq<byte>>>, data: Option<seq<byte>>)

  // The bytes of "none", which stands for no string.
  const NONE: seq<byte> := [110, 111, 110, 101]

  function Tag(flag: Flag): byte {
    match flag
    case Unsubscribe => 1
    case DeadPeers => 2
    case Publish => 3
  }

  function FromTag(tag: byte): Option<Flag> {
    match tag
    case 1 => Some(Unsubscribe)
    case 2 => Some(DeadPeers)
    case 3 => Some(Publish)
    case _ => None
  }

  // ---------- building ----------

  function Prefixed(b: seq<byte>): seq<byte> { ToLe(|b|, 4) + b }

  function Items(list: seq<seq<byte>>): seq<byte> {
    if list == [] then [] else Prefixed(list[0]) + Items(list[1..])
  }

  function ListBytes(list: Option<seq<seq<byte>>>): seq<byte> {
    match list
    case None => [0]
    case Some(v) => [1] + ToLe(|v|, 4) + Items(v)
  }

  function DataBytes(data: Option<seq<byte>>): seq<byte> {
    match data
    case None => [0]
    case Some(d) => [1] + Prefixed(d)
  }

  function TextBytes(text: Option<seq<byte>>): seq<byte> { if text.Some? then text.value else NONE }

  function Frame(r: Request): seq<byte> {
    [Tag(r.flag)] + Prefixed(TextBytes(r.text)) + ListBytes(r.list) + DataBytes(r.data)
  }

  lemma {:induction false} ItemsAppend(a: seq<seq<byte>>, x: seq<byte>)
    ensures Items(a + [x]) == Items(a) + Prefixed(x)
  {
    if a == [] {
      assert Items([x]) == Prefixed(x) + Items([]);
    } else {
      assert (a + [x])[1..] == a[1..] + [x];
      ItemsAppend(a[1..], x);
    }
  }

  method BuildFrame(r: Request) returns (buf: seq<byte>)
    ensures buf == Frame(r)
  {
    hide ToLe, Tag;
    buf := [Tag(r.flag)];
    var text := TextBytes(r.text);
    buf := buf + ToLe(|text|, 4);
    buf := buf + text;
    assert buf == [Tag(r.flag)] + Prefixed(text);
    ghost var head := buf;
    match r.list {
      case None => buf := buf + [0];
      case Some(v) =>
        buf := buf + [1];
        buf := buf + ToLe(|v|, 4);
        for i := 0 to |v|
          invariant buf == head + ([1] + ToLe(|v|, 4) + Items(v[..i]))
        {
          assert v[..i + 1] == v[..i] + [v[i]];
          ItemsAppend(v[..i], v[i]);
          buf := buf + ToLe(|v[i]|, 4);
          buf := buf + v[i];
        }
        assert v[..|v|] == v;
    }
    assert buf == head + ListBytes(r.list);
    match r.data {
      case None => buf := buf + [0];
      case Some(d) =>
        buf := buf + [1];
        buf := buf + ToLe(|d|, 4);
        buf := buf + d;
    }
  }

  // ---------- reading; None where the source panics ----------

  function ReadU32(p: seq<byte>, idx: nat): (r: Option<nat>)
    ensures r.Some? ==> idx + 4 <= |p|
  {
    if idx + 4 <= |p| then Some(FromLe(p[idx..idx + 4])) else None
  }

  function ReadPrefixed(p: seq<byte>, idx: nat): (r: Option<(seq<byte>, nat)>)
    ensures r.Some? ==> idx < r.value.1 <= |p|
  {
    match ReadU32(p, idx)
    case None => None
    case Some(len) =>
      if idx + 4 + len <= |p| then Some((p[idx + 4..idx + 4 + len], idx + 4 + len)) else None
  }

  function ReadString(p: seq<byte>, idx: nat): (r: Option<(seq<byte>, nat)>)
    ensures r.Some? ==> idx < r.value.1 <= |p|
  {
    match ReadPrefixed(p, idx)
    case None => None
    case Some((b, next)) => if IsString(b) then Some((b, next)) else None
  }

  function ReadItems(p: seq<byte>, idx: nat, count: nat): (r: Option<(seq<seq<byte>>, nat)>)
    decreases count
  {
    if count == 0 then Some(([], idx))
    else
      match ReadString(p, idx)
      case None => None
      case Some((item, next)) =>
        match ReadItems(p, next, count - 1)
        case None => None
        case Some((rest, end)) => Some(([item] + rest, end))
  }

  function ReadList(p: seq<byte>, idx: nat): Option<(Option<seq<seq<byte>>>, nat)> {
    if idx >= |p| then None
    else if p[idx] == 0 then Some((None, idx + 1))
    else
      match ReadU32(p, idx + 1)
      case None => None
      case Some(count) =>
        match ReadItems(p, idx + 5, count)
        case None => None
        case Some((v, end)) => Some((Some(v), end))
  }

  function ReadData(p: seq<byte>, idx: nat): Option<Option<seq<byte>>> {
    if idx >= |p| then None
    else if p[idx] == 0 then Some(None)
    else
      match ReadPrefixed(p, idx + 1)
      case None => None
      case Some((d, _)) => Some(Some(d))
  }

  function Process(p: seq<byte>): Option<Request> {
    if p == [] || FromTag(p[0]).None? then None
    else
      match ReadString(p, 1)
      case None => None
      case Some((s, idx)) =>
        match ReadList(p, idx)
        case None => None
        case Some((list, idx')) =>
          match ReadData(p, idx')
          case None => None
          case Some(data) => Some(Request(FromTag(p[0]).value, if s != NONE then Some(s) else None, list, data))
  }

  method ProcessItems(p: seq<byte>, start: nat, count: nat) returns (r: Option<(seq<seq<byte>>, nat)>)
    ensures r == ReadItems(p, start, count)
  {
    hide ReadString;
    var idx := start;
    var v: seq<seq<byte>> := [];
    ghost var all := ReadItems(p, start, count);
    assert all.Some? ==> v + all.value.0 == all.value.0;
    for i := 0 to count
      invariant ReadItems(p, start, count) == Prepended(v, ReadItems(p, idx, count - i))
    {
      var item := ReadString(p, idx);
      if item.None? {
        return None;
      }
      var (b, next) := item.value;
      ghost var rest := ReadItems(p, next, count - i - 1);
      if rest.Some? { assert v + ([b] + rest.value.0) == v + [b] + rest.value.0; }
      v := v + [b];
      idx := next;
    }
    assert v + [] == v;
    return Some((v, idx));
  }

  function Prepended(v: seq<seq<byte>>, r: Option<(seq<seq<byte>>, nat)>): Option<(seq<seq<byte>>, nat)> {
    match r
    case None => None
    case Some((rest, end)) => Some((v + rest, end))
  }

  method ProcessList(p: seq<byte>, start: nat) returns (r: Option<(Option<seq<seq<byte>>>, nat)>)
    ensures r == ReadList(p, start)
  {
    var idx := start;
    if idx >= |p| {
      return None;
    }
    var hasVec := p[idx];
    idx := idx + 1;
    if hasVec == 0 {
      return Some((None, idx));
    }
    var count := ReadU32(p, idx);
    if count.None? {
      return None;
    }
    idx := idx + 4;
    var items := ProcessItems(p, idx, count.value);
    if items.None? {
      return None;
    }
    return Some((Some(items.value.0), items.value.1));
  }

  method ProcessFrame(p: seq<byte>) returns (r: Option<Request>)
    ensures r == Process(p)
  {
    hide ReadString, ReadList, ReadPrefixed, FromTag;
    if p == [] {
      return None;
    }
    var idx := 0;
    var tag := p[idx];
    idx := idx + 1;
    var flag := FromTag(tag);
    if flag.None? {
      return None;
    }
    var text := ReadString(p, idx);
    if text.None? {
      return None;
    }
    idx := text.value.1;
    var s := if text.value.0 != NONE then Some(text.value.0) else None;

    var list := ProcessList(p, idx);
    if list.None? {
      return None;
    }
    idx := list.value.1;

    if idx >= |p| {
      return None;
    }
    var hasData := p[idx];
    idx := idx + 1;
    var data: Option<seq<byte>> := None;
    if hasData != 0 {
      var d := ReadPrefixed(p, idx);
      if d.None? {
        return None;
      }
      data := Some(d.value.0);
    }
    return Some(Request(flag.value, s, list.value.0, data));
  }

  // ---------- round trip ----------

  // The field of `p` at `idx`, with something before and after it.
  ghost predicate FieldAt(p: seq<byte>, idx: nat, field: seq<byte>) {
    idx + |field| <= |p| && p[idx..idx + |field|] == field
  }

  lemma WholeField(p: seq<byte>)
    ensures FieldAt(p, 0, p)
  {
    assert p[0..|p|] == p;
  }

  lemma FieldSplits(p: seq<byte>, idx: nat, a: seq<byte>, b: seq<byte>)
    requires FieldAt(p, idx, a + b)
    ensures FieldAt(p, idx, a) && FieldAt(p, idx + |a|, b)
  {
    assert p[idx..idx + |a|] == (a + b)[..|a|];
    assert p[idx + |a|..idx + |a| + |b|] == (a + b)[|a|..];
  }

  lemma U32Kept(v: nat)
    requires v < U32_LIMIT
    ensures FromLe(ToLe(v, 4)) == v
  {
    hide ToLe, FromLe;
    LeRoundTrip(v, 4);
    assert Pow256(4) == U32_LIMIT;
  }

  lemma U32At(p: seq<byte>, idx: nat, v: nat)
    requires FieldAt(p, idx, ToLe(v, 4)) && v < U32_LIMIT
    ensures ReadU32(p, idx) == Some(v)
  {
    hide ToLe, FromLe;
    U32Kept(v);
    assert p[idx..idx + 4] == ToLe(v, 4);
  }

  lemma PrefixedAt(p: seq<byte>, idx: nat, b: seq<byte>)
    requires FieldAt(p, idx, Prefixed(b)) && |b| < U32_LIMIT
    ensures ReadPrefixed(p, idx) == Some((b, idx + |Prefixed(b)|))
  {
    FieldSplits(p, idx, ToLe(|b|, 4), b);
    U32At(p, idx, |b|);
  }

  lemma StringAt(p: seq<byte>, idx: nat, b: seq<byte>)
    requires FieldAt(p, idx, Prefixed(b)) && |b| < U32_LIMIT && IsString(b)
    ensures ReadString(p, idx) == Some((b, idx + |Prefixed(b)|))
  {
    PrefixedAt(p, idx, b);
  }

  ghost predicate ShortStrings(v: seq<seq<byte>>) {
    forall i :: 0 <= i < |v| ==> |v[i]| < U32_LIMIT && IsString(v[i])
  }

  lemma {:induction false} ItemsAt(p: seq<byte>, idx: nat, v: seq<seq<byte>>)
    requires FieldAt(p, idx, Items(v)) && ShortStrings(v)
    ensures ReadItems(p, idx, |v|) == Some((v, idx + |Items(v)|))
    decreases |v|
  {
    hide Prefixed, ReadString, FieldAt, IsString, ToLe;
    if v != [] {
      FieldSplits(p, idx, Prefixed(v[0]), Items(v[1..]));
      StringAt(p, idx, v[0]);
      ItemsAt(p, idx + |Prefixed(v[0])|, v[1..]);
      assert v == [v[0]] + v[1..];
    }
  }

  lemma FirstByteAt(p: seq<byte>, idx: nat, field: seq<byte>)
    requires FieldAt(p, idx, field) && field != []
    ensures idx < |p| && p[idx] == field[0]
  {
    assert p[idx] == p[idx..idx + |field|][0];
  }

  lemma ThreeFields(p: seq<byte>, idx: nat, a: seq<byte>, b: seq<byte>, c: seq<byte>)
    requires FieldAt(p, idx, a + b + c)
    ensures FieldAt(p, idx, a) && FieldAt(p, idx + |a|, b) && FieldAt(p, idx + |a| + |b|, c)
  {
    hide FieldAt;
    FieldSplits(p, idx, a + b, c);
    FieldSplits(p, idx, a, b);
  }

  lemma ListFields(p: seq<byte>, idx: nat, v: seq<seq<byte>>)
    requires FieldAt(p, idx, ListBytes(Some(v)))
    ensures idx < |p| && p[idx] == 1
    ensures FieldAt(p, idx + 1, ToLe(|v|, 4)) && FieldAt(p, idx + 5, Items(v))
    ensures |ListBytes(Some(v))| == 5 + |Items(v)|
  {
    hide FieldAt, ToLe, Items;
    FirstByteAt(p, idx, ListBytes(Some(v)));
    ThreeFields(p, idx, [1], ToLe(|v|, 4), Items(v));
  }

  lemma ListAt(p: seq<byte>, idx: nat, list: Option<seq<seq<byte>>>)
    requires FieldAt(p, idx, ListBytes(list))
    requires list.Some? ==> |list.value| < U32_LIMIT && ShortStrings(list.value)
    ensures ReadList(p, idx) == Some((list, idx + |ListBytes(list)|))
  {
    FirstByteAt(p, idx, ListBytes(list));
    hide ShortStrings, ReadItems, Items, ReadU32, ToLe, FieldAt;
    if list.Some? {
      ListFields(p, idx, list.value);
      hide ListBytes;
      U32At(p, idx + 1, |list.value|);
      ItemsAt(p, idx + 5, list.value);
    }
  }

  lemma DataAt(p: seq<byte>, idx: nat, data: Option<seq<byte>>)
    requires FieldAt(p, idx, DataBytes(data)) && (data.Some? ==> |data.value| < U32_LIMIT)
    ensures ReadData(p, idx) == Some(data)
  {
    FirstByteAt(p, idx, DataBytes(data));
    if data.Some? {
      FieldSplits(p, idx, [1], Prefixed(data.value));
      PrefixedAt(p, idx + 1, data.value);
    }
  }

  // The strings are strings, and the lengths and the count have 32 bits.
  ghost predicate Fits(r: Request) {
    && (r.text.Some? ==> |r.text.value| < U32_LIMIT && IsString(r.text.value))
    && (r.list.Some? ==> |r.list.value| < U32_LIMIT && ShortStrings(r.list.value))
    && (r.data.Some? ==> |r.data.value| < U32_LIMIT)
  }

  lemma ProcessIs(
      p: seq<byte>, flag: Flag, text: seq<byte>, idx: nat,
      list: Option<seq<seq<byte>>>, idx': nat, data: Option<seq<byte>>)
    requires p != [] && p[0] == Tag(flag) && ReadString(p, 1) == Some((text, idx))
    requires ReadList(p, idx) == Some((list, idx')) && ReadData(p, idx') == Some(data)
    ensures Process(p) == Some(Request(flag, if text != NONE then Some(text) else None, list, data))
  {
    hide ReadString, ReadList, ReadData;
  }

  // Where the fields of a built frame are.
  lemma FieldsOf(r: Request)
    ensures var p, text, list := Frame(r), Prefixed(TextBytes(r.text)), ListBytes(r.list);
      && p != [] && p[0] == Tag(r.flag) && FieldAt(p, 1, text)
      && FieldAt(p, 1 + |text|, list) && FieldAt(p, 1 + |text| + |list|, DataBytes(r.data))
  {
    hide Prefixed, ListBytes, DataBytes, FieldAt;
    var p, text, list, data := Frame(r), Prefixed(TextBytes(r.text)), ListBytes(r.list), DataBytes(r.data);
    WholeField(p);
    FieldSplits(p, 0, [Tag(r.flag)] + text + list, data);
    ThreeFields(p, 0, [Tag(r.flag)], text, list);
  }

  // Reading undoes building, except that the string "none" comes back as no string.
  lemma ProcessedFrame(r: Request)
    requires Fits(r)
    ensures Process(Frame(r)) == Some(if r.text == Some(NONE) then r.(text := None) else r)
  {
    hide Frame, Prefixed, ListBytes, DataBytes, ReadString, ReadList, ReadData, FieldAt, Process;
    hide IsString, ShortStrings;
    var p, text := Frame(r), TextBytes(r.text);
    var idx := 1 + |Prefixed(text)|;
    FieldsOf(r);
    AsciiIsString(NONE);
    StringAt(p, 1, text);
    ListAt(p, idx, r.list);
    DataAt(p, idx + |ListBytes(r.list)|, r.data);
    ProcessIs(p, r.flag, text, idx, r.list, idx + |ListBytes(r.list)|, r.data);
  }

  lemma RoundTripIff(r: Request)
    requires Fits(r)
    ensures Process(Frame(r)) == Some(r) <==> r.text != Some(NONE)
  {
    ProcessedFrame(r);
  }

  // One request with every field, byte by byte, and one without.
  lemma FrameExample(flag: Flag, a: byte, b: byte, c: byte, d: byte)
    ensures var tag := match flag case Unsubscribe => 1 case DeadPeers => 2 case Publish => 3;
      Frame(Request(flag, Some([a]), Some([[b], [c]]), Some([d]))) ==
        [tag] + [1, 0, 0, 0, a] + [1, 2, 0, 0, 0, 1, 0, 0, 0, b, 1, 0, 0, 0, c] + [1, 1, 0, 0, 0, d]
  {
    PrefixedByte(a);
    ListExample(b, c);
    DataExample(d);
    hide ListBytes, DataBytes, Prefixed;
  }

  lemma ListExample(b: byte, c: byte)
    ensures ListBytes(Some([[b], [c]])) == [1, 2, 0, 0, 0, 1, 0, 0, 0, b, 1, 0, 0, 0, c]
  {
    SmallLength(2);
    TwoItems(b, c);
    hide ToLe, Items;
    var v := [[b], [c]];
    assert ListBytes(Some(v)) == [1] + [2, 0, 0, 0] + [1, 0, 0, 0, b, 1, 0, 0, 0, c];
  }

  lemma DataExample(d: byte)
    ensures DataBytes(Some([d])) == [1, 1, 0, 0, 0, d]
  {
    PrefixedByte(d);
    hide Prefixed;
  }

  lemma EmptyFrameExample(flag: Flag)
    ensures var tag := match flag case Unsubscribe => 1 case DeadPeers => 2 case Publish => 3;
      Frame(Request(flag, None, None, None)) == [tag, 4, 0, 0, 0, 110, 111, 110, 101, 0, 0]
  {
    SmallLength(4);
    hide ToLe;
  }

  lemma PrefixedByte(x: byte)
    ensures Prefixed([x]) == [1, 0, 0, 0, x]
  {
    SmallLength(1);
    hide ToLe;
  }

  lemma TwoItems(b: byte, c: byte)
    ensures Items([[b], [c]]) == [1, 0, 0, 0, b, 1, 0, 0, 0, c]
  {
    PrefixedByte(b);
    PrefixedByte(c);
    hide Prefixed;
    ItemsAppend([[b]], [c]);
    ItemsAppend([], [b]);
    var none: seq<seq<byte>> := [];
    assert none + [[b]] == [[b]] && [[b]] + [[c]] == [[b], [c]];
  }

  lemma SmallLength(n: nat)
    requires n < 256
    ensures ToLe(n, 4) == [n, 0, 0, 0]
  {
    assert n / 256 == 0;
    assert ToLe(0, 3) == [0] + ToLe(0, 2);
    assert ToLe(0, 2) == [0] + ToLe(0, 1);
    assert ToLe(0, 1) == [0] + ToLe(0, 0);
  }

  // ---------- what is read of any buffer ----------

  lemma ReadU32Iff(p: seq<byte>, idx: nat, v: nat)
    ensures ReadU32(p, idx) == Some(v) <==> v < U32_LIMIT && FieldAt(p, idx, ToLe(v, 4))
  {
    if ReadU32(p, idx) == Some(v) {
      LeOfValue(p[idx..idx + 4]);
      assert Pow256(4) == U32_LIMIT;
    }
    if v < U32_LIMIT && FieldAt(p, idx, ToLe(v, 4)) { U32At(p, idx, v); }
  }

  lemma ReadPrefixedIff(p: seq<byte>, idx: nat, b: seq<byte>, next: nat)
    ensures ReadPrefixed(p, idx) == Some((b, next)) <==>
      |b| < U32_LIMIT && FieldAt(p, idx, Prefixed(b)) && next == idx + |Prefixed(b)|
  {
    hide ToLe, FromLe;
    if ReadPrefixed(p, idx) == Some((b, next)) {
      ReadU32Iff(p, idx, |b|);
      assert p[idx..next] == p[idx..idx + 4] + p[idx + 4..next];
    }
    if |b| < U32_LIMIT && FieldAt(p, idx, Prefixed(b)) { PrefixedAt(p, idx, b); }
  }

  lemma {:induction false} ReadItemsIff(p: seq<byte>, idx: nat, v: seq<seq<byte>>, end: nat)
    requires idx <= |p|
    ensures ReadItems(p, idx, |v|) == Some((v, end)) <==>
      ShortStrings(v) && FieldAt(p, idx, Items(v)) && end == idx + |Items(v)|
    decreases |v|
  {
    hide FieldAt, Prefixed, IsString;
    if ShortStrings(v) && FieldAt(p, idx, Items(v)) { ItemsAt(p, idx, v); }
    if ReadItems(p, idx, |v|) == Some((v, end)) {
      if v == [] {
        EmptyField(p, idx);
      } else {
        var (item, next) := ReadString(p, idx).value;
        assert v == [item] + v[1..] && ReadItems(p, next, |v| - 1) == Some((v[1..], end));
        ReadPrefixedIff(p, idx, item, next);
        ReadItemsIff(p, next, v[1..], end);
        FieldsJoin(p, idx, Prefixed(item), Items(v[1..]));
        assert forall i :: 1 <= i < |v| ==> v[i] == v[1..][i - 1];
      }
    }
  }

  lemma EmptyField(p: seq<byte>, idx: nat)
    requires idx <= |p|
    ensures FieldAt(p, idx, [])
  {}

  lemma FieldsJoin(p: seq<byte>, idx: nat, a: seq<byte>, b: seq<byte>)
    ensures FieldAt(p, idx, a) && FieldAt(p, idx + |a|, b) ==> FieldAt(p, idx, a + b)
  {
    if FieldAt(p, idx, a) && FieldAt(p, idx + |a|, b) {
      assert p[idx..idx + |a| + |b|] == p[idx..idx + |a|] + p[idx + |a|..idx + |a| + |b|];
    }
  }

  // An optional field: a byte that says whether it is there, and the field.
  ghost predicate OptionalAt(p: seq<byte>, idx: nat, present: bool, field: seq<byte>) {
    idx < |p| && (p[idx] != 0 <==> present) && FieldAt(p, idx + 1, field)
  }

  function CountedItems(v: seq<seq<byte>>): seq<byte> { ToLe(|v|, 4) + Items(v) }

  lemma ReadListIff(p: seq<byte>, idx: nat, list: Option<seq<seq<byte>>>, end: nat)
    ensures ReadList(p, idx) == Some((list, end)) <==>
      && (list.Some? ==> |list.value| < U32_LIMIT && ShortStrings(list.value))
      && OptionalAt(p, idx, list.Some?, if list.Some? then CountedItems(list.value) else [])
      && end == idx + |ListBytes(list)|
  {
    hide ToLe, Items, ReadItems, ReadU32, ShortStrings;
    if idx < |p| && list.Some? && p[idx] != 0 {
      var v := list.value;
      ReadU32Iff(p, idx + 1, |v|);
      if FieldAt(p, idx + 1, ToLe(|v|, 4)) {
        assert idx + 5 <= |p|;
        ReadItemsIff(p, idx + 5, v, end);
      }
      FieldsJoin(p, idx + 1, ToLe(|v|, 4), Items(v));
      if FieldAt(p, idx + 1, CountedItems(v)) { FieldSplits(p, idx + 1, ToLe(|v|, 4), Items(v)); }
      ReadCountIs(p, idx, v, end);
    }
  }

  // The items read are as many as the count.
  lemma ReadCountIs(p: seq<byte>, idx: nat, v: seq<seq<byte>>, end: nat)
    requires idx < |p| && p[idx] != 0
    ensures ReadList(p, idx) == Some((Some(v), end)) <==>
      ReadU32(p, idx + 1) == Some(|v|) && ReadItems(p, idx + 5, |v|) == Some((v, end))
  {
    hide ReadItems, ReadU32;
    var count := ReadU32(p, idx + 1);
    if count.Some? { ItemsCount(p, idx + 5, count.value); }
  }

  lemma {:induction false} ItemsCount(p: seq<byte>, idx: nat, count: nat)
    ensures var r := ReadItems(p, idx, count); r.Some? ==> |r.value.0| == count
    decreases count
  {
    hide ReadString;
    if count > 0 && ReadString(p, idx).Some? { ItemsCount(p, ReadString(p, idx).value.1, count - 1); }
  }

  lemma ReadDataIff(p: seq<byte>, idx: nat, data: Option<seq<byte>>)
    ensures ReadData(p, idx) == Some(data) <==>
      && (data.Some? ==> |data.value| < U32_LIMIT)
      && OptionalAt(p, idx, data.Some?, if data.Some? then Prefixed(data.value) else [])
  {
    hide ReadPrefixed, Prefixed, FieldAt;
    if idx < |p| {
      EmptyField(p, idx + 1);
      if data.Some? { ReadPrefixedIff(p, idx + 1, data.value, idx + 1 + |Prefixed(data.value)|); }
      if p[idx] != 0 && ReadPrefixed(p, idx + 1).Some? {
        var (d, next) := ReadPrefixed(p, idx + 1).value;
        ReadPrefixedIff(p, idx + 1, d, next);
      }
    }
  }

  // Where a buffer holds the fields of a request: any nonzero byte says that an optional field is there, and
  // bytes after the last field are not looked at.
  ghost predicate Holds(p: seq<byte>, r: Request) {
    var list := 1 + |Prefixed(TextBytes(r.text))|;
    && p != [] && p[0] == Tag(r.flag) && FieldAt(p, 1, Prefixed(TextBytes(r.text)))
    && OptionalAt(p, list, r.list.Some?, if r.list.Some? then CountedItems(r.list.value) else [])
    && OptionalAt(p, list + |ListBytes(r.list)|, r.data.Some?, if r.data.Some? then Prefixed(r.data.value) else [])
  }

  lemma TagIff(tag: byte, flag: Flag)
    ensures FromTag(tag) == Some(flag) <==> tag == Tag(flag)
  {}

  lemma ReadStringIff(p: seq<byte>, idx: nat, b: seq<byte>, next: nat)
    ensures ReadString(p, idx) == Some((b, next)) <==>
      |b| < U32_LIMIT && IsString(b) && FieldAt(p, idx, Prefixed(b)) && next == idx + |Prefixed(b)|
  {
    ReadPrefixedIff(p, idx, b, next);
    hide ReadPrefixed, Prefixed, FieldAt, IsString;
  }

  lemma HoldsWhenRead(p: seq<byte>, r: Request)
    requires Process(p) == Some(r)
    ensures Holds(p, r) && Fits(r) && r.text != Some(NONE)
  {
    hide ReadString, ReadList, ReadData, FieldAt, OptionalAt, IsString, ShortStrings, Prefixed, CountedItems, Process;
    hide ListBytes, Tag, FromTag;
    ReadParts(p, r);
    var text := TextBytes(r.text);
    var list := 1 + |Prefixed(text)|;
    ReadStringIff(p, 1, text, list);
    ReadListIff(p, list, r.list, list + |ListBytes(r.list)|);
    ReadDataIff(p, list + |ListBytes(r.list)|, r.data);
    TagIff(p[0], r.flag);
  }

  lemma SameRequest(r: Request)
    requires r.text != Some(NONE)
    ensures var text := TextBytes(r.text);
      Request(r.flag, if text != NONE then Some(text) else None, r.list, r.data) == r
  {}

  lemma TextFits(r: Request)
    requires Fits(r)
    ensures |TextBytes(r.text)| < U32_LIMIT && IsString(TextBytes(r.text))
  {
    AsciiIsString(NONE);
    hide IsString;
  }

  lemma ReadWhenHolds(p: seq<byte>, r: Request)
    requires Holds(p, r) && Fits(r) && r.text != Some(NONE)
    ensures Process(p) == Some(r)
  {
    hide ReadString, ReadList, ReadData, FieldAt, OptionalAt, IsString, ShortStrings, Prefixed, CountedItems, Process;
    hide ListBytes, Tag, TextBytes;
    TextFits(r);
    SameRequest(r);
    var text := TextBytes(r.text);
    var list := 1 + |Prefixed(text)|;
    ReadStringIff(p, 1, text, list);
    ReadListIff(p, list, r.list, list + |ListBytes(r.list)|);
    ReadDataIff(p, list + |ListBytes(r.list)|, r.data);
    ProcessIs(p, r.flag, text, list, r.list, list + |ListBytes(r.list)|, r.data);
  }

  // Any buffer whatever is read as a request exactly when it holds that request, its lengths fit, its
  // strings are strings and its text is not "none"; any other buffer makes the reader panic.
  lemma ProcessIff(p: seq<byte>, r: Request)
    ensures Process(p) == Some(r) <==> Holds(p, r) && Fits(r) && r.text != Some(NONE)
  {
    hide Process, Holds, Fits;
    if Process(p) == Some(r) { HoldsWhenRead(p, r); }
    if Holds(p, r) && Fits(r) && r.text != Some(NONE) { ReadWhenHolds(p, r); }
  }

  // The parts of a request that was read.
  lemma ReadParts(p: seq<byte>, r: Request)
    requires Process(p) == Some(r)
    ensures p != [] && FromTag(p[0]) == Some(r.flag) && r.text != Some(NONE)
    ensures var text := TextBytes(r.text);
      var list := 1 + |Prefixed(text)|;
      && ReadString(p, 1) == Some((text, list))
      && ReadList(p, list) == Some((r.list, list + |ListBytes(r.list)|))
      && ReadData(p, list + |ListBytes(r.list)|) == Some(r.data)
  {
    hide ReadString, ReadList, ReadData, FieldAt, OptionalAt, IsString, ShortStrings, Prefixed, CountedItems;
    hide ListBytes, Tag, FromTag;
    var (s, idx) := ReadString(p, 1).value;
    ReadStringIff(p, 1, s, idx);
    var (list, idx') := ReadList(p, idx).value;
    ReadListIff(p, idx, list, idx');
    assert r.text == if s != NONE then Some(s) else None;
    TextIs(s);
  }

  lemma TextIs(s: seq<byte>)
    ensures TextBytes(if s != NONE then Some(s) else None) == s
  {}
}
