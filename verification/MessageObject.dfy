/**
 The message object: members, a running total, the length table and a cursor into a buffer,
 all changed member by member.  Counting fills the total and the table, serialising writes the
 buffer, and deserialising reads it back into whatever the object already holds.
 */
module MessageObject {
  import opened Codec

  class BaseMessage {
    const kinds: seq<Kind>
    var msgName: Bytes
    var members: seq<Field>
    var msgLen: nat
    var mData: array<Byte>
    var lengths: seq<nat>
    var arraySize: nat
    var arrayIndex: nat
    var cursor: nat

    /** The message the object stands for. */
    ghost function Value(): Message
      reads this
    {
      Message(msgName, members)
    }

    /** The object as a receiver. */
    ghost function Held(): Receiver
      reads this
    {
      Receiver(msgLen, arraySize, lengths, arrayIndex, cursor, msgName, members)
    }

    ghost predicate Counted()
      reads this
    {
      msgLen == Total(Value()) && lengths == Lengths(Value()) && arraySize == |lengths|
    }

    constructor (kinds: seq<Kind>)
      ensures this.kinds == kinds && Held() == Fresh(kinds) && |members| == |kinds| && fresh(mData)
    {
      this.kinds := kinds;
      msgName, members := [], seq(|kinds|, i requires 0 <= i < |kinds| => BlankField(kinds[i]));
      msgLen, lengths, arraySize, arrayIndex, cursor := 0, [], 0, 0, 0;
      mData := new Byte[0];
    }

    method CountLength(kind: Kind, field: Field)
      requires FitsField(kind, field)
      modifies this`msgLen, this`lengths, this`arraySize
      ensures msgLen == old(msgLen) + |FieldBytes(field)|
      ensures lengths == old(lengths) + FieldLengths(field)
      ensures arraySize == old(arraySize) + |FieldLengths(field)|
    {
      match field {
        case PrimVal(raw) =>
          msgLen := msgLen + kind.width;
        case TextVal(text) =>
          CountText(text);
        case VecVal(items) =>
          ItemsLength(items, kind.width);
          msgLen := msgLen + kind.width * |items|;
          lengths := lengths + [|items|];
          arraySize := arraySize + 1;
        case TextsVal(texts) =>
          CountTexts(texts);
      }
    }

    method CountTexts(texts: seq<Bytes>)
      modifies this`msgLen, this`lengths, this`arraySize
      ensures msgLen == old(msgLen) + |Flatten(texts)|
      ensures lengths == old(lengths) + LengthsOfTexts(texts)
      ensures arraySize == old(arraySize) + |texts|
    {
      for i := 0 to |texts|
        invariant msgLen + |Flatten(texts[i..])| == old(msgLen) + |Flatten(texts)|
        invariant lengths + LengthsOfTexts(texts[i..]) == old(lengths) + LengthsOfTexts(texts)
        invariant arraySize == old(arraySize) + i
      {
        ghost var before := lengths;
        assert texts[i..][0] == texts[i] && texts[i..][1..] == texts[i + 1..];
        CountText(texts[i]);
        assert before + LengthsOfTexts(texts[i..]) == lengths + LengthsOfTexts(texts[i + 1..]);
      }
      assert texts[|texts|..] == [] && lengths + [] == lengths;
    }

    method CountText(text: Bytes)
      modifies this`msgLen, this`lengths, this`arraySize
      ensures msgLen == old(msgLen) + |text| && lengths == old(lengths) + [|text|] && arraySize == old(arraySize) + 1
    {
      msgLen := msgLen + |text|;
      lengths := lengths + [|text|];
      arraySize := arraySize + 1;
    }

    method CountCapacity()
      requires Fits(kinds, members)
      modifies this`msgLen, this`lengths, this`arraySize
      ensures msgLen == old(msgLen) + |AllBytes(members)|
      ensures lengths == old(lengths) + AllLengths(members)
      ensures arraySize == old(arraySize) + |AllLengths(members)|
    {
      hide FieldBytes, FieldLengths, FitsField;
      for i := 0 to |members|
        invariant msgLen + |AllBytes(members[i..])| == old(msgLen) + |AllBytes(members)|
        invariant lengths + AllLengths(members[i..]) == old(lengths) + AllLengths(members)
        invariant arraySize + |AllLengths(members[i..])| == old(arraySize) + |AllLengths(members)|
      {
        ghost var before := lengths;
        assert members[i..][0] == members[i] && members[i..][1..] == members[i + 1..];
        CountLength(kinds[i], members[i]);
        assert before + AllLengths(members[i..]) == lengths + AllLengths(members[i + 1..]);
      }
      assert members[|members|..] == [] && lengths + [] == lengths;
    }

    /** The total and the table count everything the message will need; a second count would add it again. */
    method Count()
      requires Fits(kinds, members)
      modifies this`msgLen, this`lengths, this`arraySize
      ensures lengths == old(lengths) + Lengths(Value())
      ensures arraySize == old(arraySize) + |Lengths(Value())|
      ensures msgLen == old(msgLen) + Total(Value()) + 8 * |old(lengths)|
      ensures old(msgLen == 0 && lengths == [] && arraySize == 0) ==> Counted()
    {
      hide AllLengths, AllBytes, Fits;
      CountText(msgName);
      msgLen := msgLen + SIZE_WIDTH;
      msgLen := msgLen + SIZE_WIDTH;
      CountCapacity();
      msgLen := msgLen + SIZE_WIDTH * |lengths|;
      assert old(lengths) + [|msgName|] + AllLengths(members) == old(lengths) + Lengths(Value());
    }

    /** Copies bytes to the cursor; they must fit the buffer. */
    method CopyIn(bytes: Bytes)
      requires cursor + |bytes| <= mData.Length
      modifies this`cursor, mData
      ensures cursor == old(cursor) + |bytes| && mData[..cursor] == old(mData[..cursor]) + bytes
    {
      forall i | 0 <= i < |bytes| {
        mData[cursor + i] := bytes[i];
      }
      assert mData[..cursor] == old(mData[..cursor]);
      assert mData[cursor..cursor + |bytes|] == bytes;
      assert mData[..cursor + |bytes|] == mData[..cursor] + mData[cursor..cursor + |bytes|];
      cursor := cursor + |bytes|;
    }

    method PushSizes(sizes: seq<nat>)
      requires cursor + SIZE_WIDTH * |sizes| <= mData.Length
      modifies this`cursor, mData
      ensures cursor == old(cursor) + SIZE_WIDTH * |sizes| && mData[..cursor] == old(mData[..cursor]) + SizeTable(sizes)
    {
      for i := 0 to |sizes|
        invariant cursor == old(cursor) + SIZE_WIDTH * i
        invariant mData[..cursor] + SizeTable(sizes[i..]) == old(mData[..cursor]) + SizeTable(sizes)
      {
        assert sizes[i..][1..] == sizes[i + 1..];
        ghost var before := mData[..cursor];
        CopyIn(SizeBytes(sizes[i]));
        assert before + SizeTable(sizes[i..]) == mData[..cursor] + SizeTable(sizes[i + 1..]);
      }
      assert sizes[|sizes|..] == [];
    }

    method PushEach(parts: seq<Bytes>)
      requires cursor + |Flatten(parts)| <= mData.Length
      modifies this`cursor, mData
      ensures cursor == old(cursor) + |Flatten(parts)| && mData[..cursor] == old(mData[..cursor]) + Flatten(parts)
    {
      for i := 0 to |parts|
        invariant cursor + |Flatten(parts[i..])| == old(cursor) + |Flatten(parts)|
        invariant cursor <= mData.Length
        invariant mData[..cursor] + Flatten(parts[i..]) == old(mData[..cursor]) + Flatten(parts)
      {
        assert parts[i..][1..] == parts[i + 1..];
        ghost var before := mData[..cursor];
        CopyIn(parts[i]);
        assert before + Flatten(parts[i..]) == mData[..cursor] + Flatten(parts[i + 1..]);
      }
      assert parts[|parts|..] == [];
    }

    method PushMember(field: Field)
      requires cursor + |FieldBytes(field)| <= mData.Length
      modifies this`cursor, mData
      ensures cursor == old(cursor) + |FieldBytes(field)| && mData[..cursor] == old(mData[..cursor]) + FieldBytes(field)
    {
      match field {
        case PrimVal(raw) => CopyIn(raw);
        case TextVal(text) => CopyIn(text);
        case VecVal(items) => PushEach(items);
        case TextsVal(texts) => PushEach(texts);
      }
    }

    method PushMembers()
      requires cursor + |AllBytes(members)| <= mData.Length
      modifies this`cursor, mData
      ensures cursor == old(cursor) + |AllBytes(members)| && mData[..cursor] == old(mData[..cursor]) + AllBytes(members)
    {
      hide FieldBytes;
      for i := 0 to |members|
        invariant cursor + |AllBytes(members[i..])| == old(cursor) + |AllBytes(members)| && cursor <= mData.Length
        invariant mData[..cursor] + AllBytes(members[i..]) == old(mData[..cursor]) + AllBytes(members)
      {
        assert members[i..][1..] == members[i + 1..];
        ghost var before := mData[..cursor];
        PushMember(members[i]);
        assert before + AllBytes(members[i..]) == mData[..cursor] + AllBytes(members[i + 1..]);
      }
      assert members[|members|..] == [];
    }

    /** Writes the buffer: every copy fits, and the cursor ends exactly at the counted length. */
    method Serialize() returns (bytes: Bytes)
      requires Counted()
      modifies this`cursor, this`mData
      ensures bytes == Encode(Value()) && cursor == msgLen == |bytes| && fresh(mData)
    {
      hide AllLengths, AllBytes, SizeTable, LowBytes;
      cursor := 0;
      mData := new Byte[msgLen];
      CopyIn(SizeBytes(msgLen));
      assert mData[..cursor] == SizeBytes(msgLen);
      CopyIn(SizeBytes(arraySize));
      PushSizes(lengths);
      CopyIn(msgName);
      PushMembers();
      bytes := mData[..];
      assert bytes == mData[..cursor];
    }

    /** Reads the length table behind what the table already holds. */
    method FillArrayLike(data: Bytes) returns (ok: bool)
      modifies this`cursor, this`lengths
      ensures match ReadSizes(data, old(cursor), arraySize)
        case None => !ok
        case Some(sizes) => ok && lengths == old(lengths) + sizes && cursor == old(cursor) + SIZE_WIDTH * arraySize
    {
      hide ValueOf;
      ghost var all := ReadSizes(data, cursor, arraySize);
      assert all.Some? ==> [] + all.value == all.value;
      assert lengths[|lengths|..] == [];
      for i := 0 to arraySize
        invariant cursor == old(cursor) + SIZE_WIDTH * i
        invariant old(lengths) <= lengths
        invariant ReadSizes(data, old(cursor), arraySize) == match ReadSizes(data, cursor, arraySize - i)
          case None => None
          case Some(rest) => Some(lengths[|old(lengths)|..] + rest)
      {
        if cursor + SIZE_WIDTH > |data| {
          return false;
        }
        ghost var rest := ReadSizes(data, cursor + SIZE_WIDTH, arraySize - i - 1);
        ghost var read := lengths[|old(lengths)|..];
        var len := ValueOf(data[cursor..cursor + SIZE_WIDTH]);
        cursor := cursor + SIZE_WIDTH;
        lengths := lengths + [len];
        assert lengths[|old(lengths)|..] == read + [len];
        assert rest.Some? ==> read + ([len] + rest.value) == read + [len] + rest.value;
      }
      ok := true;
      assert lengths == old(lengths) + lengths[|old(lengths)|..];
      assert lengths[|old(lengths)|..] + [] == lengths[|old(lengths)|..];
    }

    method DeserializeHelper(data: Bytes) returns (ok: bool)
      requires |members| == |kinds|
      modifies this
      ensures mData == old(mData) && |members| == |kinds|
      ensures match ReceiveHeader(old(Held()), data)
        case None => !ok
        case Some(r) => ok && Held() == r
    {
      cursor := 0;
      if |data| < 2 * SIZE_WIDTH {
        return false;
      }
      msgLen := ValueOf(data[cursor..cursor + SIZE_WIDTH]);
      cursor := cursor + SIZE_WIDTH;
      arraySize := ValueOf(data[cursor..cursor + SIZE_WIDTH]);
      cursor := cursor + SIZE_WIDTH;
      ok := FillArrayLike(data);
      if !ok || arrayIndex >= |lengths| {
        return false;
      }
      var len := lengths[arrayIndex];
      arrayIndex := arrayIndex + 1;
      if cursor + len > |data| {
        return false;
      }
      msgName := data[cursor..cursor + len];
      cursor := cursor + len;
    }

    method PopItems(data: Bytes, width: nat, n: nat) returns (items: seq<Bytes>, ok: bool)
      modifies this`cursor
      ensures match ReadItems(data, old(cursor), width, n)
        case None => !ok
        case Some(read) => ok && items == read && cursor == old(cursor) + width * n
    {
      items := [];
      ghost var all := ReadItems(data, cursor, width, n);
      assert all.Some? ==> [] + all.value == all.value;
      for i := 0 to n
        invariant cursor == old(cursor) + width * i
        invariant ReadItems(data, old(cursor), width, n) == match ReadItems(data, cursor, width, n - i)
          case None => None
          case Some(rest) => Some(items + rest)
      {
        if cursor + width > |data| {
          return items, false;
        }
        ghost var rest := ReadItems(data, cursor + width, width, n - i - 1);
        ghost var read := items;
        var tmp := data[cursor..cursor + width];
        cursor := cursor + width;
        items := items + [tmp];
        assert width * (i + 1) == width * i + width;
        assert rest.Some? ==> read + ([tmp] + rest.value) == items + rest.value;
      }
      ok := true;
      assert items + [] == items;
    }

    method PopTexts(data: Bytes) returns (texts: seq<Bytes>, ok: bool)
      requires arraySize <= |lengths|
      modifies this`cursor
      ensures var ls := if arrayIndex < arraySize then lengths[arrayIndex..arraySize] else [];
        match ReadTexts(data, old(cursor), ls)
        case None => !ok
        case Some(read) => ok && texts == read && cursor == old(cursor) + Sum(ls)
    {
      texts := [];
      ghost var ls := if arrayIndex < arraySize then lengths[arrayIndex..arraySize] else [];
      ghost var all := ReadTexts(data, cursor, ls);
      assert ls[0..] == ls;
      assert all.Some? ==> [] + all.value == all.value;
      var i := arrayIndex;
      while i < arraySize
        invariant arrayIndex <= i && (arrayIndex < arraySize ==> i <= arraySize)
        invariant cursor + Sum(ls[if arrayIndex < arraySize then i - arrayIndex else 0..]) == old(cursor) + Sum(ls)
        invariant ReadTexts(data, old(cursor), ls)
               == match ReadTexts(data, cursor, ls[if arrayIndex < arraySize then i - arrayIndex else 0..])
                  case None => None
                  case Some(rest) => Some(texts + rest)
      {
        ghost var todo := ls[i - arrayIndex..];
        assert todo[0] == lengths[i] && todo[1..] == ls[i + 1 - arrayIndex..];
        if cursor + lengths[i] > |data| {
          return texts, false;
        }
        ghost var rest := ReadTexts(data, cursor + lengths[i], todo[1..]);
        ghost var read := texts;
        var text := data[cursor..cursor + lengths[i]];
        texts := texts + [text];
        cursor := cursor + lengths[i];
        assert rest.Some? ==> read + ([text] + rest.value) == texts + rest.value;
        i := i + 1;
      }
      ok := true;
      assert texts + [] == texts;
    }

    method PopMember(data: Bytes, i: nat) returns (ok: bool)
      requires |members| == |kinds| && i < |kinds|
      modifies this
      ensures mData == old(mData) && |members| == |kinds|
      ensures match ReceiveField(old(Held()), i, kinds[i], data)
        case None => !ok
        case Some(r) => ok && Held() == r
    {
      match kinds[i] {
        case Prim(width) =>
          if cursor + width > |data| {
            return false;
          }
          members := members[i := PrimVal(data[cursor..cursor + width])];
          cursor := cursor + width;
        case Text =>
          if arrayIndex >= |lengths| {
            return false;
          }
          var len := lengths[arrayIndex];
          arrayIndex := arrayIndex + 1;
          if cursor + len > |data| {
            return false;
          }
          members := members[i := TextVal(data[cursor..cursor + len])];
          cursor := cursor + len;
        case Vec(width) =>
          if arrayIndex >= |lengths| || !members[i].VecVal? {
            return false;
          }
          var len := lengths[arrayIndex];
          arrayIndex := arrayIndex + 1;
          var items;
          items, ok := PopItems(data, width, len);
          members := members[i := VecVal(members[i].items + items)];
          return ok;
        case Texts =>
          if !members[i].TextsVal? || arraySize > |lengths| {
            return false;
          }
          var texts;
          texts, ok := PopTexts(data);
          members := members[i := TextsVal(members[i].texts + texts)];
          return ok;
      }
      ok := true;
    }

    /** Decodes into this object; false where the program would read past the bytes or throw. */
    method Deserialize(data: Bytes) returns (ok: bool)
      requires |members| == |kinds|
      modifies this
      ensures mData == old(mData) && |members| == |kinds|
      ensures match Receive(old(Held()), kinds, data)
        case None => !ok
        case Some(r) => ok && Held() == r
    {
      ok := DeserializeHelper(data);
      if !ok {
        return;
      }
      for i := 0 to |kinds|
        invariant mData == old(mData) && |members| == |kinds|
        invariant Receive(old(Held()), kinds, data) == ReceiveFields(Held(), kinds, i, data)
      {
        ok := PopMember(data, i);
        if !ok {
          return;
        }
      }
      ok := true;
    }
  }

  /** A message built, counted and serialised by one object is restored by another of its schema. */
  method RoundTripObjects(kinds: seq<Kind>, m: Message) returns (bytes: Bytes, got: Message)
    requires IsSchema(kinds) && Fits(kinds, m.fields) && Total(m) < SIZE_LIMIT
    ensures got == m && |bytes| == Total(m)
  {
    var sender := new BaseMessage(kinds);
    sender.msgName, sender.members := m.name, m.fields;
    sender.Count();
    bytes := sender.Serialize();
    EncodeLength(m);
    var receiver := new BaseMessage(kinds);
    RoundTrip(kinds, m);
    var ok := receiver.Deserialize(bytes);
    got := Message(receiver.msgName, receiver.members);
  }
}
