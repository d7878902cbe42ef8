/**
 packet/: MQTT packets as lists of fields, printed and parsed with a running length budget
 (sections 2.2 and 3.3 of MQTT 3.1.1). Strings are byte sequences.
 */
module Packets {
  import opened Wrappers
  import opened Bits
  import opened Bytes
  import opened RemainingLength

  /**
   Str is dynamic_str and dynamic_bytes; Byte is static_int(1) and a flag group; Id is packet_id and static_int(2);
   Request is a SubscribePayload; List is a dynamic_list of strings, bytes or requests.
   */
  datatype Kind = Str | Byte | Id | Rest | Request | List(item: Kind)

  datatype Value =
    | StrV(s: bytes)
    | IntV(n: nat)
    | RestV(data: Option<bytes>)
    | RequestV(topic: bytes, qos: nat)
    | ListV(items: seq<Value>)

  predicate IsItem(kind: Kind) {
    kind.Str? || kind.Byte? || kind.Request?
  }

  /** What to_bytes can pack. */
  predicate Fits(kind: Kind, v: Value) {
    match kind
    case Str => v.StrV? && |v.s| < 65536
    case Byte => v.IntV? && v.n < 256
    case Id => v.IntV? && v.n < 65536
    case Rest => v.RestV?
    case Request => v.RequestV? && |v.topic| < 65536 && v.qos < 256
    case List(item) => IsItem(item) && v.ListV? && forall x :: x in v.items ==> Fits(item, x)
  }

  function FieldBytes(kind: Kind, v: Value): bytes
    requires Fits(kind, v)
    decreases kind, 0
  {
    match kind
    case Str => Pack16(|v.s|) + v.s
    case Byte => [v.n as bv8]
    case Id => Pack16(v.n)
    case Rest => v.data.GetOr([])
    case Request => Pack16(|v.topic|) + v.topic + [v.qos as bv8]
    case List(item) => ItemsBytes(item, v.items)
  }

  function ItemsBytes(item: Kind, items: seq<Value>): bytes
    requires forall x :: x in items ==> Fits(item, x)
    decreases item, 1, |items|
  {
    if items == [] then [] else FieldBytes(item, items[0]) + ItemsBytes(item, items[1..])
  }

  predicate FieldsFit(kinds: seq<Kind>, values: seq<Value>) {
    |kinds| == |values| && forall i :: 0 <= i < |kinds| ==> Fits(kinds[i], values[i])
  }

  function FieldsBytes(kinds: seq<Kind>, values: seq<Value>): bytes
    requires FieldsFit(kinds, values)
  {
    if kinds == [] then [] else FieldBytes(kinds[0], values[0]) + FieldsBytes(kinds[1..], values[1..])
  }

  // ---------------------------------------------------------------- parsing: a value and the bytes it took

  function Take(input: bytes, n: nat): Result<bytes> {
    if n <= |input| then Ok(input[..n]) else Err(ConnectionClosed)
  }

  function ReadField(kind: Kind, input: bytes, length: int): (r: Result<(Value, nat)>)
    ensures r.Ok? ==> r.value.1 <= |input|
    decreases kind, 0
  {
    match kind
    case Str =>
      var size :- Take(input, 2);
      var n := Unpack16(size);
      var s :- Take(input[2..], n);
      Ok((StrV(s), n + 2))
    case Byte =>
      var b :- Take(input, 1);
      Ok((IntV(b[0] as nat), 1))
    case Id =>
      var b :- Take(input, 2);
      Ok((IntV(Unpack16(b)), 2))
    case Rest =>
      if length < 1 then Ok((RestV(None), 0))
      else
        var b :- Take(input, length);
        Ok((RestV(Some(b)), length))
    case Request =>
      var size :- Take(input, 2);
      var n := Unpack16(size);
      var topic :- Take(input[2..], n);
      var qos :- Take(input[2 + n..], 1);
      Ok((RequestV(topic, qos[0] as nat), n + 3))
    case List(item) =>
      if !IsItem(item) then Ok((ListV([]), 0))
      else
        var found :- ReadItems(item, input, length);
        Ok((ListV(found.0), found.1))
  }

  function ReadItems(item: Kind, input: bytes, length: int): (r: Result<(seq<Value>, nat)>)
    requires IsItem(item)
    ensures r.Ok? ==> r.value.1 <= |input|
    decreases item, 2, length
  {
    if length <= 0 then Ok(([], 0))
    else
      var first :- ReadItem(item, input);
      var others :- ReadItems(item, input[first.1..], length - first.1);
      Ok(([first.0] + others.0, first.1 + others.1))
  }

  function ReadItem(item: Kind, input: bytes): (r: Result<(Value, nat)>)
    requires IsItem(item)
    ensures r.Ok? ==> 0 < r.value.1 <= |input|
    decreases item, 1
  {
    ReadField(item, input, 0)
  }

  /** read_payload: the budget shrinks by what each field took (twice over for a list, which ends the packet). */
  function ReadFields(kinds: seq<Kind>, input: bytes, length: int): (r: Result<(seq<Value>, nat)>)
    ensures r.Ok? ==> r.value.1 <= |input|
  {
    if kinds == [] then Ok(([], 0))
    else
      var first :- ReadField(kinds[0], input, length);
      var left := length - first.1 - if kinds[0].List? then first.1 else 0;
      var others :- ReadFields(kinds[1..], input[first.1..], left);
      Ok(([first.0] + others.0, first.1 + others.1))
  }

  // ---------------------------------------------------------------- round trips

  /** What a value reads back as: an empty payload is no payload. */
  function Normal(v: Value): Value {
    if v == RestV(Some([])) then RestV(None) else v
  }

  function NormalAll(values: seq<Value>): seq<Value> {
    if values == [] then [] else [Normal(values[0])] + NormalAll(values[1..])
  }

  /** Only the last field may take all that is left of the budget. */
  predicate GreedyLast(kinds: seq<Kind>) {
    forall i :: 0 <= i < |kinds| - 1 ==> !kinds[i].Rest? && !kinds[i].List?
  }

  lemma ItemRoundTrip(item: Kind, v: Value, rest: bytes, length: int)
    requires !item.Rest? && !item.List? && Fits(item, v)
    ensures ReadField(item, FieldBytes(item, v) + rest, length) == Ok((v, |FieldBytes(item, v)|))
    ensures |FieldBytes(item, v)| > 0 && Normal(v) == v
  {
    var input := FieldBytes(item, v) + rest;
    match item
    case Str =>
      assert input[..2] == Pack16(|v.s|) && input[2..] == v.s + rest;
      PackUnpack16(|v.s|);
      assert input[2..][..|v.s|] == v.s;
    case Byte =>
      assert input[..1] == [v.n as bv8];
      ByteRoundTrip(v.n);
    case Id =>
      assert input[..2] == Pack16(v.n);
      PackUnpack16(v.n);
    case Request =>
      RequestRoundTrip(v, rest, length);
  }

  lemma RequestRoundTrip(v: Value, rest: bytes, length: int)
    requires Fits(Request, v)
    ensures ReadField(Request, FieldBytes(Request, v) + rest, length) == Ok((v, |FieldBytes(Request, v)|))
  {
    hide Pack16, Unpack16;
    var n, qos := |v.topic|, [v.qos as bv8];
    var input := FieldBytes(Request, v) + rest;
    PackUnpack16(n);
    ByteRoundTrip(v.qos);
    assert input == Pack16(n) + (v.topic + (qos + rest));
    AfterFirst(Pack16(n), v.topic, qos + rest);
    assert input[..2] == Pack16(n) && input[2..] == v.topic + (qos + rest);
    assert input[2..][..n] == v.topic && input[2 + n..] == qos + rest && (qos + rest)[..1] == qos;
  }

  lemma ReadItemsStep(item: Kind, input: bytes, length: int, first: Value, n: nat, others: seq<Value>, m: nat)
    requires IsItem(item) && length > 0 && n <= |input|
    requires ReadItem(item, input) == Ok((first, n)) && ReadItems(item, input[n..], length - n) == Ok((others, m))
    ensures ReadItems(item, input, length) == Ok(([first] + others, n + m))
  {
    hide ReadItem;
  }

  lemma AfterFirst(a: bytes, b: bytes, c: bytes)
    ensures (a + b) + c == a + (b + c) && (a + (b + c))[|a|..] == b + c
  {
  }

  lemma ItemsKinds(item: Kind)
    requires IsItem(item)
    ensures !item.Rest? && !item.List?
    ensures forall input :: ReadItem(item, input) == ReadField(item, input, 0)
  {
  }

  lemma {:induction false} ItemsRoundTrip(item: Kind, items: seq<Value>, rest: bytes)
    requires IsItem(item) && forall x :: x in items ==> Fits(item, x)
    ensures ReadItems(item, ItemsBytes(item, items) + rest, |ItemsBytes(item, items)|) == Ok((items, |ItemsBytes(item, items)|))
    decreases |items|
  {
    hide FieldBytes, ReadField, Fits;
    if items != [] {
      hide ReadItems, IsItem, ReadItem;
      var first, more := FieldBytes(item, items[0]), ItemsBytes(item, items[1..]);
      assert ItemsBytes(item, items) == first + more;
      hide ItemsBytes;
      AfterFirst(first, more, rest);
      var input := first + (more + rest);
      ItemsKinds(item);
      ItemRoundTrip(item, items[0], more + rest, 0);
      ItemsRoundTrip(item, items[1..], rest);
      ReadItemsStep(item, input, |first| + |more|, items[0], |first|, items[1..], |more|);
      assert [items[0]] + items[1..] == items;
    }
  }

  lemma LastRoundTrip(kind: Kind, v: Value, rest: bytes)
    requires Fits(kind, v)
    ensures ReadField(kind, FieldBytes(kind, v) + rest, |FieldBytes(kind, v)|) == Ok((Normal(v), |FieldBytes(kind, v)|))
  {
    match kind
    case Rest =>
      assert (v.data.GetOr([]) + rest)[..|v.data.GetOr([])|] == v.data.GetOr([]);
    case List(item) =>
      ItemsRoundTrip(item, v.items, rest);
    case _ =>
      ItemRoundTrip(kind, v, rest, |FieldBytes(kind, v)|);
  }

  /** Printed fields parse back, whatever follows them, taking exactly the bytes announced. */
  lemma {:induction false} FieldsRoundTrip(kinds: seq<Kind>, values: seq<Value>, rest: bytes)
    requires FieldsFit(kinds, values) && GreedyLast(kinds)
    ensures ReadFields(kinds, FieldsBytes(kinds, values) + rest, |FieldsBytes(kinds, values)|) ==
            Ok((NormalAll(values), |FieldsBytes(kinds, values)|))
    decreases |kinds|
  {
    hide FieldBytes, ReadField, Fits, Normal;
    if kinds != [] {
      var first, more := FieldBytes(kinds[0], values[0]), FieldsBytes(kinds[1..], values[1..]);
      var all := FieldsBytes(kinds, values);
      var input := all + rest;
      assert input == first + (more + rest) && input[|first|..] == more + rest;
      if |kinds| == 1 {
        assert kinds[1..] == [] && values[1..] == [] && more == [] && all == first;
        LastRoundTrip(kinds[0], values[0], rest);
        assert NormalAll(values) == [Normal(values[0])] + NormalAll(values[1..]);
      } else {
        ItemRoundTrip(kinds[0], values[0], more + rest, |all|);
        FieldsRoundTrip(kinds[1..], values[1..], rest);
      }
    }
  }

  /** Neither the rest of a packet nor a list: such fields do not look at the budget. */
  predicate Budgetless(kinds: seq<Kind>) {
    forall kind :: kind in kinds ==> !kind.Rest? && !kind.List?
  }

  /** Such fields parse back whatever the budget is, and whatever follows them. */
  lemma {:induction false} BudgetlessRoundTrip(kinds: seq<Kind>, values: seq<Value>, rest: bytes, length: int)
    requires FieldsFit(kinds, values) && Budgetless(kinds)
    ensures ReadFields(kinds, FieldsBytes(kinds, values) + rest, length) == Ok((values, |FieldsBytes(kinds, values)|))
    decreases |kinds|
  {
    hide FieldBytes, ReadField, Fits;
    if kinds != [] {
      var first, more := FieldBytes(kinds[0], values[0]), FieldsBytes(kinds[1..], values[1..]);
      AfterFirst(first, more, rest);
      ItemRoundTrip(kinds[0], values[0], more + rest, length);
      BudgetlessRoundTrip(kinds[1..], values[1..], rest, length - |first|);
      assert [values[0]] + values[1..] == values;
    }
  }

  lemma {:induction false} FieldsAppend(a: seq<Kind>, b: seq<Kind>, values: seq<Value>)
    requires FieldsFit(a + b, values)
    ensures FieldsFit(a, values[..|a|]) && FieldsFit(b, values[|a|..])
    ensures FieldsBytes(a + b, values) == FieldsBytes(a, values[..|a|]) + FieldsBytes(b, values[|a|..])
    decreases |a|
  {
    hide FieldBytes, Fits;
    var n := |a|;
    forall i | 0 <= i < |b|
      ensures Fits(b[i], values[n..][i])
    {
      assert (a + b)[n + i] == b[i];
    }
    if a == [] {
      assert a + b == b && values[0..] == values;
    } else {
      assert (a + b)[1..] == a[1..] + b;
      FieldsAppend(a[1..], b, values[1..]);
      assert values[1..][..n - 1] == values[..n][1..] && values[1..][n - 1..] == values[n..];
    }
  }

  lemma {:induction false} NormalIsPlain(kinds: seq<Kind>, values: seq<Value>)
    requires FieldsFit(kinds, values) && Budgetless(kinds)
    ensures NormalAll(values) == values
    decreases |values|
  {
    if values != [] {
      assert kinds[0] in kinds;
      NormalIsPlain(kinds[1..], values[1..]);
      assert [values[0]] + values[1..] == values;
    }
  }

  /** Fields read in two parts, the second from where the first ended. */
  lemma TwoReads(head: seq<Kind>, tail: seq<Kind>, h: seq<Value>, t: seq<Value>, rest: bytes, length: int)
    requires FieldsFit(head, h) && FieldsFit(tail, t) && Budgetless(head) && Budgetless(tail)
    ensures var first, second := FieldsBytes(head, h), FieldsBytes(tail, t);
            var input := first + second + rest;
            && ReadFields(head, input, length) == Ok((h, |first|))
            && ReadFields(tail, input[|first|..], length - |first|) == Ok((t, |second|))
  {
    hide FieldsBytes, ReadFields, FieldsFit, Budgetless;
    var first, second := FieldsBytes(head, h), FieldsBytes(tail, t);
    AfterFirst(first, second, rest);
    BudgetlessRoundTrip(head, h, second + rest, length);
    BudgetlessRoundTrip(tail, t, rest, length - |first|);
  }
}
