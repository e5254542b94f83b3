/**
 The wire format of messages.  A message is its name and its fields in a fixed order; on the
 wire stand the total length, the number of array-like lengths, those lengths, the name and
 the fields.  A receiver object keeps its length table and its position in it from one
 message to the next, so decoding is a function of the receiver as well as of the bytes.
 */
module Codec {
  newtype Byte = x: int | 0 <= x < 256
  type Bytes = seq<Byte>

  const SIZE_WIDTH: nat := 8
  const SIZE_LIMIT: nat := 0x1_0000_0000_0000_0000

  datatype Option<T> = None | Some(value: T)

  // ---- a size_t in memory: eight bytes, low byte first ----

  function Pow256(k: nat): nat { if k == 0 then 1 else 256 * Pow256(k - 1) }

  function LowBytes(n: nat, k: nat): (s: Bytes)
    ensures |s| == k
  {
    if k == 0 then [] else [(n % 256) as Byte] + LowBytes(n / 256, k - 1)
  }

  function ValueOf(s: Bytes): nat {
    if s == [] then 0 else s[0] as nat + 256 * ValueOf(s[1..])
  }

  function SizeBytes(n: nat): (s: Bytes)
    ensures |s| == SIZE_WIDTH
  {
    LowBytes(n, SIZE_WIDTH)
  }

  lemma {:induction false} LowBytesRoundTrip(n: nat, k: nat)
    requires n < Pow256(k)
    ensures ValueOf(LowBytes(n, k)) == n
    decreases k
  {
    if k > 0 {
      assert n / 256 < Pow256(k - 1);
      LowBytesRoundTrip(n / 256, k - 1);
      assert LowBytes(n, k)[1..] == LowBytes(n / 256, k - 1);
    }
  }

  lemma {:induction false} SizeRoundTrip(n: nat)
    requires n < SIZE_LIMIT
    ensures ValueOf(SizeBytes(n)) == n
  {
    assert Pow256(2) == 0x1_0000;
    assert Pow256(4) == 256 * (256 * Pow256(2)) == 0x1_0000_0000;
    assert Pow256(6) == 256 * (256 * Pow256(4)) == 0x1_0000_0000_0000;
    assert Pow256(8) == 256 * (256 * Pow256(6)) == SIZE_LIMIT;
    LowBytesRoundTrip(n, 8);
  }

  // ---- schemas and messages ----

  /** A primitive of a fixed width, a string, a vector of primitives, or a vector of strings. */
  datatype Kind = Prim(width: nat) | Text | Vec(width: nat) | Texts

  datatype Field = PrimVal(raw: Bytes) | TextVal(text: Bytes) | VecVal(items: seq<Bytes>) | TextsVal(texts: seq<Bytes>)

  datatype Message = Message(name: Bytes, fields: seq<Field>)

  /** Widths are positive and a vector of strings stands last. */
  predicate IsSchema(kinds: seq<Kind>) {
    && (forall i :: 0 <= i < |kinds| && kinds[i].Prim? ==> kinds[i].width > 0)
    && (forall i :: 0 <= i < |kinds| && kinds[i].Vec? ==> kinds[i].width > 0)
    && (forall i :: 0 <= i < |kinds| - 1 ==> !kinds[i].Texts?)
  }

  predicate HasTexts(kinds: seq<Kind>) { kinds != [] && kinds[|kinds| - 1].Texts? }

  predicate FitsField(kind: Kind, field: Field) {
    match kind
    case Prim(width) => field.PrimVal? && |field.raw| == width
    case Text => field.TextVal?
    case Vec(width) => field.VecVal? && forall i :: 0 <= i < |field.items| ==> |field.items[i]| == width
    case Texts => field.TextsVal?
  }

  predicate Fits(kinds: seq<Kind>, fields: seq<Field>) {
    |kinds| == |fields| && forall i :: 0 <= i < |kinds| ==> FitsField(kinds[i], fields[i])
  }

  function Flatten(ss: seq<Bytes>): Bytes {
    if ss == [] then [] else ss[0] + Flatten(ss[1..])
  }

  function LengthsOfTexts(texts: seq<Bytes>): (r: seq<nat>)
    ensures |r| == |texts|
  {
    if texts == [] then [] else [|texts[0]|] + LengthsOfTexts(texts[1..])
  }

  /** The entries a field puts into the length table. */
  function FieldLengths(field: Field): seq<nat> {
    match field
    case PrimVal(raw) => []
    case TextVal(text) => [|text|]
    case VecVal(items) => [|items|]
    case TextsVal(texts) => LengthsOfTexts(texts)
  }

  function FieldBytes(field: Field): Bytes {
    match field
    case PrimVal(raw) => raw
    case TextVal(text) => text
    case VecVal(items) => Flatten(items)
    case TextsVal(texts) => Flatten(texts)
  }

  function AllLengths(fields: seq<Field>): seq<nat> {
    if fields == [] then [] else FieldLengths(fields[0]) + AllLengths(fields[1..])
  }

  function AllBytes(fields: seq<Field>): Bytes {
    if fields == [] then [] else FieldBytes(fields[0]) + AllBytes(fields[1..])
  }

  function Lengths(m: Message): seq<nat> { [|m.name|] + AllLengths(m.fields) }

  function Total(m: Message): nat {
    2 * SIZE_WIDTH + SIZE_WIDTH * |Lengths(m)| + |m.name| + |AllBytes(m.fields)|
  }

  function SizeTable(sizes: seq<nat>): (s: Bytes)
    ensures |s| == SIZE_WIDTH * |sizes|
  {
    if sizes == [] then [] else SizeBytes(sizes[0]) + SizeTable(sizes[1..])
  }

  function Encode(m: Message): Bytes {
    SizeBytes(Total(m)) + SizeBytes(|Lengths(m)|) + SizeTable(Lengths(m)) + m.name + AllBytes(m.fields)
  }

  // ---- receiving ----

  /** What a receiving object holds: the header it read, its length table and position, its members. */
  datatype Receiver = Receiver(
    total: nat, size: nat, lengths: seq<nat>, index: nat, cursor: nat, name: Bytes, fields: seq<Field>)

  function BlankField(kind: Kind): Field {
    match kind
    case Prim(width) => PrimVal([])
    case Text => TextVal([])
    case Vec(width) => VecVal([])
    case Texts => TextsVal([])
  }

  function Fresh(kinds: seq<Kind>): Receiver {
    Receiver(0, 0, [], 0, 0, [], seq(|kinds|, i requires 0 <= i < |kinds| => BlankField(kinds[i])))
  }

  /** The bytes between two positions, if the data reaches that far. */
  function Slice(data: Bytes, from: nat, len: nat): Option<Bytes> {
    if from + len <= |data| then Some(data[from..from + len]) else None
  }

  function ReadSizes(data: Bytes, from: nat, n: nat): Option<seq<nat>>
    decreases n
  {
    if n == 0 then Some([])
    else if from + SIZE_WIDTH > |data| then None
    else match ReadSizes(data, from + SIZE_WIDTH, n - 1)
      case None => None
      case Some(rest) => Some([ValueOf(data[from..from + SIZE_WIDTH])] + rest)
  }

  function ReadItems(data: Bytes, from: nat, width: nat, n: nat): Option<seq<Bytes>>
    decreases n
  {
    if n == 0 then Some([])
    else if from + width > |data| then None
    else match ReadItems(data, from + width, width, n - 1)
      case None => None
      case Some(rest) => Some([data[from..from + width]] + rest)
  }

  function ReadTexts(data: Bytes, from: nat, lengths: seq<nat>): Option<seq<Bytes>>
    decreases lengths
  {
    if lengths == [] then Some([])
    else if from + lengths[0] > |data| then None
    else match ReadTexts(data, from + lengths[0], lengths[1..])
      case None => None
      case Some(rest) => Some([data[from..from + lengths[0]]] + rest)
  }

  function Sum(lengths: seq<nat>): nat {
    if lengths == [] then 0 else lengths[0] + Sum(lengths[1..])
  }

  /** The header and the name; `None` where the program would read outside the bytes or throw. */
  function ReceiveHeader(r: Receiver, data: Bytes): Option<Receiver> {
    if |data| < 2 * SIZE_WIDTH then None
    else
      var total, size := ValueOf(data[..8]), ValueOf(data[8..16]);
      match ReadSizes(data, 16, size)
      case None => None
      case Some(sizes) =>
        var lengths := r.lengths + sizes;
        var cursor := 16 + SIZE_WIDTH * size;
        if r.index >= |lengths| then None
        else match Slice(data, cursor, lengths[r.index])
          case None => None
          case Some(name) =>
            Some(Receiver(total, size, lengths, r.index + 1, cursor + lengths[r.index], name, r.fields))
  }

  /** One member.  Vectors are appended to what the member already holds. */
  function ReceiveField(r: Receiver, i: nat, kind: Kind, data: Bytes): (o: Option<Receiver>)
    requires i < |r.fields|
    ensures o.Some? ==> |o.value.fields| == |r.fields|
  {
    match kind
    case Prim(width) =>
      (match Slice(data, r.cursor, width)
       case None => None
       case Some(raw) => Some(r.(cursor := r.cursor + width, fields := r.fields[i := PrimVal(raw)])))
    case Text =>
      if r.index >= |r.lengths| then None
      else (match Slice(data, r.cursor, r.lengths[r.index])
        case None => None
        case Some(text) => Some(r.(cursor := r.cursor + r.lengths[r.index], index := r.index + 1,
                                   fields := r.fields[i := TextVal(text)])))
    case Vec(width) =>
      if r.index >= |r.lengths| || !r.fields[i].VecVal? then None
      else (match ReadItems(data, r.cursor, width, r.lengths[r.index])
        case None => None
        case Some(items) => Some(r.(cursor := r.cursor + width * r.lengths[r.index], index := r.index + 1,
                                    fields := r.fields[i := VecVal(r.fields[i].items + items)])))
    case Texts =>
      if !r.fields[i].TextsVal? || r.size > |r.lengths| then None
      else
        var lengths := if r.index < r.size then r.lengths[r.index..r.size] else [];
        (match ReadTexts(data, r.cursor, lengths)
         case None => None
         case Some(texts) => Some(r.(cursor := r.cursor + Sum(lengths),
                                     fields := r.fields[i := TextsVal(r.fields[i].texts + texts)])))
  }

  function ReceiveFields(r: Receiver, kinds: seq<Kind>, i: nat, data: Bytes): Option<Receiver>
    requires |r.fields| == |kinds| && i <= |kinds|
    decreases |kinds| - i
  {
    if i == |kinds| then Some(r)
    else match ReceiveField(r, i, kinds[i], data)
      case None => None
      case Some(r1) => ReceiveFields(r1, kinds, i + 1, data)
  }

  function Receive(r: Receiver, kinds: seq<Kind>, data: Bytes): Option<Receiver>
    requires |r.fields| == |kinds|
  {
    match ReceiveHeader(r, data)
    case None => None
    case Some(r1) => ReceiveFields(r1, kinds, 0, data)
  }

  // ---- the length on the wire is the length of the wire ----

  lemma {:induction false} EncodeLength(m: Message)
    ensures |Encode(m)| == Total(m) && Total(m) >= 24
  {
  }

  lemma {:induction false} EncodeStartsWithTotal(m: Message)
    requires Total(m) < SIZE_LIMIT
    ensures |Encode(m)| >= 8 && ValueOf(Encode(m)[..8]) == |Encode(m)|
  {
    EncodeLength(m);
    SizeRoundTrip(Total(m));
    assert Encode(m)[..8] == SizeBytes(Total(m));
  }

  // ---- where each part stands ----

  /** The eight bytes are the digits of the size to the base 256, lowest first. */
  lemma {:induction false} SizeDigits(n: nat)
    requires n < SIZE_LIMIT
    ensures var s := SizeBytes(n);
      n == s[0] as nat + 0x100 * s[1] as nat + 0x1_0000 * s[2] as nat + 0x100_0000 * s[3] as nat
         + 0x1_0000_0000 * s[4] as nat + 0x100_0000_0000 * s[5] as nat
         + 0x1_0000_0000_0000 * s[6] as nat + 0x100_0000_0000_0000 * s[7] as nat
  {
    SizeRoundTrip(n);
    var s := SizeBytes(n);
    assert ValueOf(s) == s[0] as nat + 256 * ValueOf(s[1..]);
    assert ValueOf(s[1..]) == s[1] as nat + 256 * ValueOf(s[2..]) by { assert s[1..][1..] == s[2..]; }
    assert ValueOf(s[2..]) == s[2] as nat + 256 * ValueOf(s[3..]) by { assert s[2..][1..] == s[3..]; }
    assert ValueOf(s[3..]) == s[3] as nat + 256 * ValueOf(s[4..]) by { assert s[3..][1..] == s[4..]; }
    assert ValueOf(s[4..]) == s[4] as nat + 256 * ValueOf(s[5..]) by { assert s[4..][1..] == s[5..]; }
    assert ValueOf(s[5..]) == s[5] as nat + 256 * ValueOf(s[6..]) by { assert s[5..][1..] == s[6..]; }
    assert ValueOf(s[6..]) == s[6] as nat + 256 * ValueOf(s[7..]) by { assert s[6..][1..] == s[7..]; }
    assert ValueOf(s[7..]) == s[7] as nat + 256 * ValueOf(s[8..]) by { assert s[7..][1..] == s[8..]; }
  }

  lemma {:induction false} TableEntry(sizes: seq<nat>, k: nat)
    requires k < |sizes|
    ensures SizeTable(sizes)[8 * k..8 * k + 8] == SizeBytes(sizes[k])
    decreases k
  {
    hide SizeBytes;
    var first, rest := SizeBytes(sizes[0]), SizeTable(sizes[1..]);
    if k > 0 {
      TableEntry(sizes[1..], k - 1);
      assert (first + rest)[8 * k..8 * k + 8] == rest[8 * (k - 1)..8 * (k - 1) + 8];
    } else {
      assert (first + rest)[..8] == first;
    }
  }

  /**
   The layout: the length of the whole, the number of table entries, the table, the name, the members'
   bytes; the first entry is the length of the name.
   */
  lemma {:induction false} Layout(m: Message)
    requires Total(m) < SIZE_LIMIT && AllSizes(Lengths(m))
    ensures var e, n, name := Encode(m), |Lengths(m)|, |m.name|;
      && |e| == 16 + 8 * n + name + |AllBytes(m.fields)|
      && ValueOf(e[..8]) == |e| && ValueOf(e[8..16]) == n
      && (forall k :: 0 <= k < n ==> ValueOf(e[16 + 8 * k..24 + 8 * k]) == Lengths(m)[k])
      && e[16 + 8 * n..16 + 8 * n + name] == m.name && e[16 + 8 * n + name..] == AllBytes(m.fields)
      && n == 1 + |AllLengths(m.fields)| && Lengths(m)[0] == name && Lengths(m)[1..] == AllLengths(m.fields)
  {
    hide SizeBytes, SizeTable, AllBytes, AllLengths, ValueOf;
    var n := |Lengths(m)|;
    var a, b, table, all := SizeBytes(Total(m)), SizeBytes(n), SizeTable(Lengths(m)), AllBytes(m.fields);
    var e := Encode(m);
    assert e == a + b + table + m.name + all;
    SizeRoundTrip(Total(m));
    SizeRoundTrip(n);
    assert e[..8] == a && e[8..16] == b;
    forall k | 0 <= k < n ensures ValueOf(e[16 + 8 * k..24 + 8 * k]) == Lengths(m)[k] {
      TableEntry(Lengths(m), k);
      SizeRoundTrip(Lengths(m)[k]);
      assert e[16 + 8 * k..24 + 8 * k] == table[8 * k..8 * k + 8];
    }
  }

  lemma {:induction false} MembersSplit(fields: seq<Field>, i: nat)
    requires i < |fields|
    ensures AllLengths(fields) == AllLengths(fields[..i]) + FieldLengths(fields[i]) + AllLengths(fields[i + 1..])
    ensures AllBytes(fields) == AllBytes(fields[..i]) + FieldBytes(fields[i]) + AllBytes(fields[i + 1..])
    decreases i
  {
    hide FieldLengths, FieldBytes;
    if i == 0 {
      assert [] + FieldLengths(fields[0]) == FieldLengths(fields[0]) && [] + FieldBytes(fields[0]) == FieldBytes(fields[0]);
    } else {
      MembersSplit(fields[1..], i - 1);
      assert fields[..i][0] == fields[0] && fields[..i][1..] == fields[1..][..i - 1];
    }
  }

  lemma {:induction false} TextLengths(texts: seq<Bytes>)
    ensures forall k :: 0 <= k < |texts| ==> LengthsOfTexts(texts)[k] == |texts[k]|
    decreases texts
  {
    if texts != [] { TextLengths(texts[1..]); }
  }

  /**
   Members follow each other in order, in the table and in the bytes.  A primitive has its bytes and no
   entry; a string one entry, its length; a vector one entry, its number of items; a list of strings
   one entry for each string.
   */
  lemma {:induction false} MemberStands(fields: seq<Field>, i: nat)
    requires i < |fields|
    ensures var k, at := |AllLengths(fields[..i])|, |AllBytes(fields[..i])|;
      match fields[i]
      case PrimVal(raw) => At(AllBytes(fields), at, raw) && |AllLengths(fields[..i + 1])| == k
      case TextVal(text) =>
        && At(AllBytes(fields), at, text) && |AllLengths(fields[..i + 1])| == k + 1
        && k < |AllLengths(fields)| && AllLengths(fields)[k] == |text|
      case VecVal(items) =>
        && At(AllBytes(fields), at, Flatten(items)) && |AllLengths(fields[..i + 1])| == k + 1
        && k < |AllLengths(fields)| && AllLengths(fields)[k] == |items|
      case TextsVal(texts) =>
        && At(AllBytes(fields), at, Flatten(texts)) && |AllLengths(fields[..i + 1])| == k + |texts|
        && k + |texts| <= |AllLengths(fields)|
        && forall j :: 0 <= j < |texts| ==> AllLengths(fields)[k + j] == |texts[j]|
  {
    hide AllLengths, AllBytes, Flatten;
    MembersSplit(fields, i);
    MembersSplit(fields[..i + 1], i);
    assert fields[..i + 1][..i] == fields[..i] && fields[..i + 1][i + 1..] == [];
    NoMembers();
    if fields[i].TextsVal? { TextLengths(fields[i].texts); }
  }

  lemma NoMembers()
    ensures AllLengths([]) == [] && AllBytes([]) == []
  {
  }

  // ---- reading back each part ----

  /** `part` stands in `data` at a position. */
  predicate At(data: Bytes, from: nat, part: Bytes) {
    from + |part| <= |data| && data[from..from + |part|] == part
  }

  lemma {:induction false} AtParts(data: Bytes, from: nat, a: Bytes, b: Bytes)
    requires At(data, from, a + b)
    ensures At(data, from, a) && At(data, from + |a|, b)
  {
    var ab := a + b;
    assert forall i :: 0 <= i < |ab| ==> data[from + i] == data[from..from + |ab|][i] == ab[i];
    assert forall i :: 0 <= i < |a| ==> data[from..from + |a|][i] == data[from + i] == ab[i] == a[i];
    assert forall i :: 0 <= i < |b| ==> data[from + |a|..from + |a| + |b|][i] == data[from + (|a| + i)] == ab[|a| + i] == b[i];
    assert data[from..from + |a|] == a;
    assert data[from + |a|..from + |a| + |b|] == b;
  }

  predicate AllSizes(sizes: seq<nat>) { forall i :: 0 <= i < |sizes| ==> sizes[i] < SIZE_LIMIT }

  lemma {:induction false} ReadSizesBack(data: Bytes, from: nat, sizes: seq<nat>)
    requires AllSizes(sizes) && At(data, from, SizeTable(sizes))
    ensures ReadSizes(data, from, |sizes|) == Some(sizes)
    decreases sizes
  {
    if sizes != [] {
      AtParts(data, from, SizeBytes(sizes[0]), SizeTable(sizes[1..]));
      SizeRoundTrip(sizes[0]);
      ReadSizesBack(data, from + 8, sizes[1..]);
      assert [sizes[0]] + sizes[1..] == sizes;
    }
  }

  lemma {:induction false} ReadItemsBack(data: Bytes, from: nat, width: nat, items: seq<Bytes>)
    requires forall i :: 0 <= i < |items| ==> |items[i]| == width
    requires At(data, from, Flatten(items))
    ensures ReadItems(data, from, width, |items|) == Some(items)
    decreases items
  {
    if items != [] {
      AtParts(data, from, items[0], Flatten(items[1..]));
      ReadItemsBack(data, from + width, width, items[1..]);
      assert [items[0]] + items[1..] == items;
    }
  }

  lemma {:induction false} ReadTextsBack(data: Bytes, from: nat, texts: seq<Bytes>)
    requires At(data, from, Flatten(texts))
    ensures ReadTexts(data, from, LengthsOfTexts(texts)) == Some(texts)
    ensures Sum(LengthsOfTexts(texts)) == |Flatten(texts)|
    decreases texts
  {
    if texts != [] {
      var lengths := LengthsOfTexts(texts);
      AtParts(data, from, texts[0], Flatten(texts[1..]));
      ReadTextsBack(data, from + |texts[0]|, texts[1..]);
      assert lengths[1..] == LengthsOfTexts(texts[1..]);
      assert [texts[0]] + texts[1..] == texts;
    }
  }

  // ---- what a receiver ends up with ----

  /** A member after a message: vectors are kept and extended, everything else is replaced. */
  function MergeField(held: Field, sent: Field): Field {
    if held.VecVal? && sent.VecVal? then VecVal(held.items + sent.items)
    else if held.TextsVal? && sent.TextsVal? then TextsVal(held.texts + sent.texts)
    else sent
  }

  function Merge(held: seq<Field>, sent: seq<Field>): (r: seq<Field>)
    requires |held| == |sent|
    ensures |r| == |sent| && forall i :: 0 <= i < |sent| ==> r[i] == MergeField(held[i], sent[i])
  {
    seq(|sent|, i requires 0 <= i < |sent| => MergeField(held[i], sent[i]))
  }

  /** Each member is of the sort its kind calls for. */
  predicate Shaped(kinds: seq<Kind>, fields: seq<Field>) {
    && |kinds| == |fields|
    && (forall i :: 0 <= i < |kinds| ==> (kinds[i].Vec? ==> fields[i].VecVal?) && (kinds[i].Texts? ==> fields[i].TextsVal?))
  }

  /** Ready for another message: the table is used up, and empty if a vector of strings is to be read. */
  predicate Ready(r: Receiver, kinds: seq<Kind>) {
    r.index == |r.lengths| && Shaped(kinds, r.fields) && (HasTexts(kinds) ==> r.lengths == [])
  }

  predicate SizesFit(m: Message) { Total(m) < SIZE_LIMIT && AllSizes(Lengths(m)) }

  /** Every entry of the table is bounded by the bytes it counts, so it fits when the total fits. */
  lemma {:induction false} TableFits(kinds: seq<Kind>, m: Message)
    requires IsSchema(kinds) && Fits(kinds, m.fields) && Total(m) < SIZE_LIMIT
    ensures SizesFit(m)
  {
    LengthsBounded(kinds, m.fields);
    var sizes := Lengths(m);
    forall i | 0 <= i < |sizes| ensures sizes[i] < SIZE_LIMIT {
      if i > 0 { assert sizes[i] in AllLengths(m.fields) by { assert sizes[i] == AllLengths(m.fields)[i - 1]; } }
    }
  }

  lemma {:induction false} TextsBounded(texts: seq<Bytes>)
    ensures forall n :: n in LengthsOfTexts(texts) ==> n <= |Flatten(texts)|
  {
    if texts != [] { TextsBounded(texts[1..]); }
  }

  lemma {:induction false} ItemsLength(items: seq<Bytes>, width: nat)
    requires forall i :: 0 <= i < |items| ==> |items[i]| == width
    ensures |Flatten(items)| == width * |items|
  {
    if items != [] {
      ItemsLength(items[1..], width);
      assert width * |items| == width + width * (|items| - 1);
    }
  }

  lemma {:induction false} LengthsBounded(kinds: seq<Kind>, fields: seq<Field>)
    requires Fits(kinds, fields) && forall i :: 0 <= i < |kinds| && kinds[i].Vec? ==> kinds[i].width > 0
    ensures forall n :: n in AllLengths(fields) ==> n <= |AllBytes(fields)|
    decreases fields
  {
    if fields != [] {
      LengthsBounded(kinds[1..], fields[1..]);
      match fields[0] {
        case VecVal(items) =>
          ItemsLength(items, kinds[0].width);
          assert kinds[0].width * |items| >= |items|;
        case TextsVal(texts) => TextsBounded(texts);
        case _ =>
      }
    }
  }

  lemma {:induction false} HeaderBack(r: Receiver, m: Message, data: Bytes)
    requires SizesFit(m) && r.index == |r.lengths| && At(data, 0, Encode(m))
    ensures ReceiveHeader(r, data)
         == Some(Receiver(Total(m), |Lengths(m)|, r.lengths + Lengths(m), r.index + 1,
                          16 + 8 * |Lengths(m)| + |m.name|, m.name, r.fields))
    ensures At(data, 16 + 8 * |Lengths(m)| + |m.name|, AllBytes(m.fields))
  {
    hide LowBytes, ValueOf, ReadSizes, SizeTable, AllBytes, AllLengths, AllSizes;
    var k := |Lengths(m)|;
    EncodeLength(m);
    var a, b, c, d, e := SizeBytes(Total(m)), SizeBytes(k), SizeTable(Lengths(m)), m.name, AllBytes(m.fields);
    AtParts(data, 0, a + b + c + d, e);
    AtParts(data, 0, a + b + c, d);
    AtParts(data, 0, a + b, c);
    AtParts(data, 0, a, b);
    SizeRoundTrip(Total(m));
    SizeRoundTrip(k);
    ReadSizesBack(data, 16, Lengths(m));
    var lengths := r.lengths + Lengths(m);
    assert lengths[r.index] == |m.name|;
  }

  lemma {:induction false} FieldBack(r: Receiver, i: nat, kind: Kind, field: Field, data: Bytes)
    requires i < |r.fields| && FitsField(kind, field)
    requires kind.Vec? ==> r.fields[i].VecVal?
    requires kind.Texts? ==> r.fields[i].TextsVal? && r.size == |r.lengths|
    requires r.index <= |r.lengths|
    requires At(data, r.cursor, FieldBytes(field))
    requires kind.Texts? ==> r.lengths[r.index..] == FieldLengths(field)
    requires !kind.Texts? ==> FieldLengths(field) <= r.lengths[r.index..]
    ensures ReceiveField(r, i, kind, data)
         == Some(r.(cursor := r.cursor + |FieldBytes(field)|,
                    index := if kind.Texts? then r.index else r.index + |FieldLengths(field)|,
                    fields := r.fields[i := MergeField(r.fields[i], field)]))
  {
    hide ReadItems, ReadTexts, Flatten, ValueOf, Sum, LengthsOfTexts;
    match kind {
      case Prim(width) =>
      case Text =>
        assert r.lengths[r.index..][0] == |field.text|;
      case Vec(width) =>
        assert r.lengths[r.index..][0] == |field.items|;
        ReadItemsBack(data, r.cursor, width, field.items);
        ItemsLength(field.items, width);
      case Texts =>
        ReadTextsBack(data, r.cursor, field.texts);
        if r.index < r.size { assert r.lengths[r.index..r.size] == r.lengths[r.index..]; }
    }
  }

  lemma {:induction false} FieldsBack(r: Receiver, kinds: seq<Kind>, i: nat, sent: seq<Field>, data: Bytes) returns (r': Receiver)
    requires IsSchema(kinds) && Fits(kinds, sent) && Shaped(kinds, r.fields) && i <= |kinds|
    requires r.index <= |r.lengths| && r.lengths[r.index..] == AllLengths(sent[i..])
    requires HasTexts(kinds) ==> r.size == |r.lengths|
    requires At(data, r.cursor, AllBytes(sent[i..]))
    ensures ReceiveFields(r, kinds, i, data) == Some(r')
    ensures r'.total == r.total && r'.name == r.name && r'.lengths == r.lengths
    ensures r'.cursor == r.cursor + |AllBytes(sent[i..])|
    ensures !HasTexts(kinds) ==> r'.index == |r'.lengths|
    ensures HasTexts(kinds) && i < |kinds| ==>
      r'.index <= |r'.lengths| && r'.lengths[r'.index..] == FieldLengths(sent[|kinds| - 1])
    ensures |r'.fields| == |kinds|
    ensures forall j :: 0 <= j < i ==> r'.fields[j] == r.fields[j]
    ensures forall j :: i <= j < |kinds| ==> r'.fields[j] == MergeField(r.fields[j], sent[j])
    decreases |kinds| - i
  {
    hide FieldBytes, FieldLengths, ReceiveField;
    if i == |kinds| {
      assert sent[i..] == [];
      r' := r;
    } else {
      var rest := sent[i + 1..];
      assert sent[i..][0] == sent[i] && sent[i..][1..] == rest;
      AtParts(data, r.cursor, FieldBytes(sent[i]), AllBytes(rest));
      if kinds[i].Texts? {
        assert i == |kinds| - 1 && rest == [];
        assert FieldLengths(sent[i]) + [] == FieldLengths(sent[i]);
      } else {
        assert FieldLengths(sent[i]) <= FieldLengths(sent[i]) + AllLengths(rest);
      }
      FieldBack(r, i, kinds[i], sent[i], data);
      var r1 := ReceiveField(r, i, kinds[i], data).value;
      if kinds[i].Texts? {
        assert ReceiveFields(r1, kinds, i + 1, data) == Some(r1);
        r' := r1;
        assert |AllBytes(rest)| == 0;
      } else {
        var n := |FieldLengths(sent[i])|;
        assert r.lengths[r.index..][n..] == r1.lengths[r1.index..];
        assert (FieldLengths(sent[i]) + AllLengths(rest))[n..] == AllLengths(rest);
        r' := FieldsBack(r1, kinds, i + 1, sent, data);
      }
    }
  }

  lemma {:induction false} MergeShaped(kinds: seq<Kind>, held: seq<Field>, sent: seq<Field>)
    requires Fits(kinds, sent) && Shaped(kinds, held) && |held| == |sent|
    ensures Shaped(kinds, Merge(held, sent))
  {
  }

  /**
   The round trip, for every schema and every receiver that is ready: the name and the total
   length come back, vectors are extended by what was sent and every other member is exactly
   what was sent, exactly the message's own bytes are read, and a receiver without a vector
   of strings is ready again.
   */
  lemma {:induction false} ReceiveBack(r: Receiver, kinds: seq<Kind>, m: Message, rest: Bytes) returns (r': Receiver)
    requires IsSchema(kinds) && Fits(kinds, m.fields) && Total(m) < SIZE_LIMIT && Ready(r, kinds)
    ensures Receive(r, kinds, Encode(m) + rest) == Some(r')
    ensures r'.name == m.name && r'.total == |Encode(m)| && r'.cursor == |Encode(m)|
    ensures r'.fields == Merge(r.fields, m.fields)
    ensures !HasTexts(kinds) ==> Ready(r', kinds)
    ensures HasTexts(kinds) ==>
      r'.index <= |r'.lengths| && r'.lengths[r'.index..] == FieldLengths(m.fields[|kinds| - 1])
  {
    hide Encode, ReceiveHeader, ReceiveFields, AllBytes, SizeTable, SizesFit, IsSchema, FieldLengths, MergeField;
    var data := Encode(m) + rest;
    assert data[0..|Encode(m)|] == Encode(m);
    TableFits(kinds, m);
    HeaderBack(r, m, data);
    var r1 := ReceiveHeader(r, data).value;
    assert r1.lengths[r1.index..] == AllLengths(m.fields);
    assert m.fields[0..] == m.fields;
    r' := FieldsBack(r1, kinds, 0, m.fields, data);
    MergeShaped(kinds, r.fields, m.fields);
    EncodeLength(m);
  }

  lemma {:induction false} BlankMerge(kinds: seq<Kind>, sent: seq<Field>)
    requires Fits(kinds, sent)
    ensures Ready(Fresh(kinds), kinds) && Merge(Fresh(kinds).fields, sent) == sent
  {
    forall i | 0 <= i < |kinds| ensures MergeField(Fresh(kinds).fields[i], sent[i]) == sent[i] {
      match sent[i] {
        case VecVal(items) => assert [] + items == items;
        case TextsVal(texts) => assert [] + texts == texts;
        case _ =>
      }
    }
  }

  /** A fresh object restores every member of every schema. */
  lemma {:induction false} RoundTrip(kinds: seq<Kind>, m: Message)
    requires IsSchema(kinds) && Fits(kinds, m.fields) && Total(m) < SIZE_LIMIT
    ensures Receive(Fresh(kinds), kinds, Encode(m)).Some?
    ensures var r := Receive(Fresh(kinds), kinds, Encode(m)).value;
      r.name == m.name && r.fields == m.fields && r.total == |Encode(m)| && r.cursor == |Encode(m)|
  {
    hide Encode, Receive, Fits, Merge, Total;
    BlankMerge(kinds, m.fields);
    var r := ReceiveBack(Fresh(kinds), kinds, m, []);
    assert Encode(m) + [] == Encode(m);
  }

  // ---- the same object receives one message after another ----

  function ReceiveAll(r: Receiver, kinds: seq<Kind>, ms: seq<Message>): Option<seq<Message>>
    requires |r.fields| == |kinds|
    decreases ms
  {
    if ms == [] then Some([])
    else match Receive(r, kinds, Encode(ms[0]))
      case None => None
      case Some(r1) =>
        if |r1.fields| != |kinds| then None
        else match ReceiveAll(r1, kinds, ms[1..])
          case None => None
          case Some(got) => Some([Message(r1.name, r1.fields)] + got)
  }

  predicate Plain(kinds: seq<Kind>) { forall i :: 0 <= i < |kinds| ==> kinds[i].Prim? || kinds[i].Text? }

  lemma {:induction false} PlainMerge(kinds: seq<Kind>, held: seq<Field>, sent: seq<Field>)
    requires Plain(kinds) && Fits(kinds, sent) && |held| == |sent|
    ensures Merge(held, sent) == sent
  {
  }

  /** Strings and primitives: every message of a sequence comes out of the reused object as it was sent. */
  lemma {:induction false} ReuseRoundTrip(r: Receiver, kinds: seq<Kind>, ms: seq<Message>)
    requires IsSchema(kinds) && Plain(kinds) && Ready(r, kinds)
    requires forall i :: 0 <= i < |ms| ==> Fits(kinds, ms[i].fields) && Total(ms[i]) < SIZE_LIMIT
    ensures ReceiveAll(r, kinds, ms) == Some(ms)
    decreases ms
  {
    hide Encode, Receive, Merge, Total, IsSchema;
    if ms != [] {
      var r1 := ReceiveBack(r, kinds, ms[0], []);
      assert Encode(ms[0]) + [] == Encode(ms[0]);
      PlainMerge(kinds, r.fields, ms[0].fields);
      ReuseRoundTrip(r1, kinds, ms[1..]);
      assert [ms[0]] + ms[1..] == ms;
    }
  }

  /**
   Without a vector of strings, a reused object shows a message's own fields exactly when
   every vector member was empty before: what a vector held stays in front of what was sent.
   */
  lemma {:induction false} ReuseIff(r: Receiver, kinds: seq<Kind>, m: Message)
    requires IsSchema(kinds) && !HasTexts(kinds) && Ready(r, kinds) && Fits(kinds, m.fields) && Total(m) < SIZE_LIMIT
    ensures Receive(r, kinds, Encode(m)).Some?
    ensures Receive(r, kinds, Encode(m)).value.fields == m.fields
            <==> forall i :: 0 <= i < |kinds| && kinds[i].Vec? ==> r.fields[i].items == []
  {
    var r1 := ReceiveBack(r, kinds, m, []);
    assert Encode(m) + [] == Encode(m);
    var merged := Merge(r.fields, m.fields);
    if merged == m.fields {
      forall i | 0 <= i < |kinds| && kinds[i].Vec? ensures r.fields[i].items == [] {
        assert merged[i] == VecVal(r.fields[i].items + m.fields[i].items);
        assert |r.fields[i].items + m.fields[i].items| == |m.fields[i].items|;
      }
    }
    if forall i :: 0 <= i < |kinds| && kinds[i].Vec? ==> r.fields[i].items == [] {
      forall i | 0 <= i < |kinds| ensures merged[i] == m.fields[i] {
        if kinds[i].Vec? { assert [] + m.fields[i].items == m.fields[i].items; }
      }
    }
  }

  /** The name is as long as the entry of the table at the position kept from before. */
  lemma {:induction false} NameLength(r: Receiver, data: Bytes)
    requires r.index < |r.lengths|
    ensures ReceiveHeader(r, data).Some? ==> |ReceiveHeader(r, data).value.name| == r.lengths[r.index]
  {
    hide ReadSizes, ValueOf;
  }

  /**
   With a vector of strings the table is used up after a message exactly when the vector was
   empty; otherwise the next message's name is cut to the length of this one's first string.
   */
  lemma {:induction false} TextsReuse(kinds: seq<Kind>, m: Message, next: Message)
    requires IsSchema(kinds) && HasTexts(kinds) && Fits(kinds, m.fields) && Total(m) < SIZE_LIMIT
    ensures Receive(Fresh(kinds), kinds, Encode(m)).Some?
    ensures var r, texts := Receive(Fresh(kinds), kinds, Encode(m)).value, m.fields[|kinds| - 1].texts;
      && (r.index == |r.lengths| <==> texts == [])
      && (texts != [] && ReceiveHeader(r, Encode(next)).Some? ==>
            |ReceiveHeader(r, Encode(next)).value.name| == |texts[0]|)
  {
    hide Encode, Receive, Fits, Total, ReceiveHeader, IsSchema, LengthsOfTexts;
    AfterTexts(kinds, m);
    var r := Receive(Fresh(kinds), kinds, Encode(m)).value;
    var texts := m.fields[|kinds| - 1].texts;
    TableOfTexts(r.lengths, r.index, texts);
    if texts != [] { NameLength(r, Encode(next)); }
  }

  lemma {:induction false} AfterTexts(kinds: seq<Kind>, m: Message)
    requires IsSchema(kinds) && HasTexts(kinds) && Fits(kinds, m.fields) && Total(m) < SIZE_LIMIT
    ensures kinds != [] && |kinds| == |m.fields| && m.fields[|kinds| - 1].TextsVal?
    ensures Receive(Fresh(kinds), kinds, Encode(m)).Some?
    ensures var r := Receive(Fresh(kinds), kinds, Encode(m)).value;
      r.index <= |r.lengths| && r.lengths[r.index..] == LengthsOfTexts(m.fields[|kinds| - 1].texts)
  {
    hide Encode, Receive, Fits, Merge, Total, IsSchema, Ready;
    FitsLast(kinds, m.fields);
    BlankMerge(kinds, m.fields);
    var r := ReceiveBack(Fresh(kinds), kinds, m, []);
    assert Encode(m) + [] == Encode(m);
  }

  lemma {:induction false} TableOfTexts(lengths: seq<nat>, index: nat, texts: seq<Bytes>)
    requires index <= |lengths| && lengths[index..] == LengthsOfTexts(texts)
    ensures index == |lengths| <==> texts == []
    ensures texts != [] ==> lengths[index] == |texts[0]|
  {
    if texts != [] { assert lengths[index] == lengths[index..][0]; }
  }

  lemma {:induction false} FitsLast(kinds: seq<Kind>, fields: seq<Field>)
    requires Fits(kinds, fields) && kinds != []
    ensures |kinds| == |fields| && FitsField(kinds[|kinds| - 1], fields[|kinds| - 1])
  {
  }

  // ---- dispatch and nesting ----

  /**
   The base decode that picks the handler: whatever the message's own schema, a fresh heartbeat
   object reads its name and total length, as long as eight bytes follow the name.
   */
  lemma {:induction false} BaseDecode(kinds: seq<Kind>, m: Message, rest: Bytes)
    requires IsSchema(kinds) && Fits(kinds, m.fields) && Total(m) < SIZE_LIMIT
    requires |AllBytes(m.fields)| + |rest| >= 8
    ensures Receive(Fresh([Prim(8)]), [Prim(8)], Encode(m) + rest).Some?
    ensures var r := Receive(Fresh([Prim(8)]), [Prim(8)], Encode(m) + rest).value;
      r.name == m.name && r.total == |Encode(m)|
  {
    var data := Encode(m) + rest;
    assert data[0..|Encode(m)|] == Encode(m);
    TableFits(kinds, m);
    HeaderBack(Fresh([Prim(8)]), m, data);
    EncodeLength(m);
    var r1 := ReceiveHeader(Fresh([Prim(8)]), data).value;
    assert ReceiveField(r1, 0, Prim(8), data).Some?;
    var r2 := ReceiveField(r1, 0, Prim(8), data).value;
    assert ReceiveFields(r2, [Prim(8)], 1, data) == Some(r2);
  }

  /** A packer message carries whole messages as strings; unpacking it and each string restores them all. */
  lemma {:induction false} NestedRoundTrip(name: Bytes, kinds: seq<Kind>, inner: seq<Message>, packed: seq<Bytes>)
    requires IsSchema(kinds) && |packed| == |inner|
    requires forall i :: 0 <= i < |inner| ==> Fits(kinds, inner[i].fields) && Total(inner[i]) < SIZE_LIMIT && packed[i] == Encode(inner[i])
    requires Total(Message(name, [TextsVal(packed)])) < SIZE_LIMIT
    ensures Receive(Fresh([Texts]), [Texts], Encode(Message(name, [TextsVal(packed)]))).Some?
    ensures var r := Receive(Fresh([Texts]), [Texts], Encode(Message(name, [TextsVal(packed)]))).value;
      && r.fields == [TextsVal(packed)]
      && forall i :: 0 <= i < |inner| ==>
        var t := Receive(Fresh(kinds), kinds, r.fields[0].texts[i]);
        t.Some? && t.value.name == inner[i].name && t.value.fields == inner[i].fields
  {
    RoundTrip([Texts], Message(name, [TextsVal(packed)]));
    forall i | 0 <= i < |inner| {
      RoundTrip(kinds, inner[i]);
    }
  }

  // ---- schemas of the program ----

  const HEARTBEAT: seq<Kind> := [Prim(8)]
  const LOGIN_REQUEST: seq<Kind> := [Prim(8), Text, Text]
  const LOGIN_RESPONSE: seq<Kind> := [Prim(8), Text, Text, Prim(4), Text, Prim(4), Texts]
  const CHARACTER_BASE_INFO: seq<Kind> := [Text, Prim(4), Prim(1), Prim(4), Prim(4)]
  const LOGIN_CHARACTER_REQUEST: seq<Kind> := [Prim(8), Text, Text, Text, Prim(1), Prim(4), Prim(4)]

  const DS_CHARACTER: seq<Kind> := [Prim(8), Prim(4), Text, Text, Text]
  const DS_STATE: seq<Kind> := [Prim(8), Prim(4), Prim(4), Prim(4), Text]
  const CHARACTER_INFO: seq<Kind> :=
    [Text, Text, Prim(4), Prim(1), Prim(4), Prim(4), Prim(4), Prim(4), Prim(4), Prim(4), Prim(4), Prim(4), Prim(4),
     Prim(4), Prim(4), Prim(8), Prim(8), Prim(8)]
  const PACKER: seq<Kind> := [Texts]

  const TEST_VECTORS: seq<Kind> := [Vec(4), Vec(8)]
  const TEST_STRINGS: seq<Kind> := [Prim(1), Vec(8), Texts]
  const TEST_LOGIN_REPLY: seq<Kind> := [Prim(8), Text]
  const CHAT_REQUEST: seq<Kind> := [Prim(8), Text, Text, Text, Text]

  /**
   The message types of strings and primitives.  The test login and the request to enter the game have
   the schema of the login request, the reply to the latter that of the heartbeat.
   */
  const PLAIN_TYPES: seq<seq<Kind>> :=
    [[], HEARTBEAT, LOGIN_REQUEST, CHARACTER_BASE_INFO, LOGIN_CHARACTER_REQUEST, DS_CHARACTER, DS_STATE, CHARACTER_INFO,
     TEST_LOGIN_REPLY, CHAT_REQUEST]

  /** The message types with vectors. */
  const VECTOR_TYPES: seq<seq<Kind>> := [LOGIN_RESPONSE, PACKER, TEST_VECTORS, TEST_STRINGS]

  predicate PlainSchema(kinds: seq<Kind>) { IsSchema(kinds) && Plain(kinds) }

  lemma {:induction false} ShortPlainTypes()
    ensures PlainSchema([]) && PlainSchema(HEARTBEAT) && PlainSchema(LOGIN_REQUEST) && PlainSchema(TEST_LOGIN_REPLY)
  {
  }

  lemma {:induction false} DsPlainTypes()
    ensures PlainSchema(DS_CHARACTER) && PlainSchema(DS_STATE) && PlainSchema(CHARACTER_BASE_INFO) && PlainSchema(CHAT_REQUEST)
  {
  }

  lemma {:induction false} LongPlainTypes()
    ensures PlainSchema(LOGIN_CHARACTER_REQUEST) && PlainSchema(CHARACTER_INFO)
  {
  }

  lemma {:induction false} PlainTypes(i: nat)
    requires i < |PLAIN_TYPES|
    ensures PlainSchema(PLAIN_TYPES[i])
  {
    hide PlainSchema;
    ShortPlainTypes();
    DsPlainTypes();
    LongPlainTypes();
  }

  lemma {:induction false} VectorTypes(i: nat)
    requires i < |VECTOR_TYPES|
    ensures IsSchema(VECTOR_TYPES[i]) && !Plain(VECTOR_TYPES[i])
  {
    assert !LOGIN_RESPONSE[6].Prim? && !LOGIN_RESPONSE[6].Text?;
    assert !PACKER[0].Prim? && !PACKER[0].Text?;
    assert !TEST_VECTORS[0].Prim? && !TEST_VECTORS[0].Text?;
    assert !TEST_STRINGS[2].Prim? && !TEST_STRINGS[2].Text?;
  }

  /**
   Every message type of the program: a fresh object restores each message, and an object used again
   and again restores every sequence of messages of strings and primitives.
   */
  lemma {:induction false} ProgramRoundTrips(kinds: seq<Kind>, ms: seq<Message>)
    requires kinds in PLAIN_TYPES || kinds in VECTOR_TYPES
    requires forall j :: 0 <= j < |ms| ==> Fits(kinds, ms[j].fields) && Total(ms[j]) < SIZE_LIMIT
    ensures forall j :: 0 <= j < |ms| ==>
      var r := Receive(Fresh(kinds), kinds, Encode(ms[j]));
      r.Some? && r.value.name == ms[j].name && r.value.fields == ms[j].fields
    ensures kinds in PLAIN_TYPES ==> ReceiveAll(Fresh(kinds), kinds, ms) == Some(ms)
  {
    hide IsSchema, Plain, Fits, Receive, Encode, Total, ReceiveAll, Ready;
    IsProgramSchema(kinds);
    forall j | 0 <= j < |ms| { RoundTrip(kinds, ms[j]); }
    if kinds in PLAIN_TYPES {
      FreshIsReady(kinds);
      ReuseRoundTrip(Fresh(kinds), kinds, ms);
    }
  }

  lemma {:induction false} IsProgramSchema(kinds: seq<Kind>)
    requires kinds in PLAIN_TYPES || kinds in VECTOR_TYPES
    ensures IsSchema(kinds) && (kinds in PLAIN_TYPES ==> Plain(kinds))
  {
    hide IsSchema, Plain;
    if kinds in PLAIN_TYPES {
      var i :| 0 <= i < |PLAIN_TYPES| && PLAIN_TYPES[i] == kinds;
      PlainTypes(i);
    } else {
      var i :| 0 <= i < |VECTOR_TYPES| && VECTOR_TYPES[i] == kinds;
      VectorTypes(i);
    }
  }

  lemma {:induction false} FreshIsReady(kinds: seq<Kind>)
    ensures Ready(Fresh(kinds), kinds)
  {
  }
}
