/** The byte strings that are signed: length-prefixed fields that can be read back. */
module Signing {
  import opened Prelude

  /** room and contentType are UTF-8; epoch is a 64-bit number. */
  datatype Message = Message(room: Blob, epoch: nat, contentType: Blob, ciphertext: Blob)

  /** The key has 32 bytes. */
  datatype PublisherKey = PublisherKey(room: Blob, epoch: nat, key: Blob)

  const TWO_TO_32 := 0x1_0000_0000
  const TWO_TO_64 := 0x1_0000_0000_0000_0000

  // ---- Big-endian numbers ----

  /** The lowest k bytes of a number: what is higher is cut off. */
  function BigEndian(n: nat, k: nat): (r: Blob)
    ensures |r| == k
  {
    if k == 0 then [] else BigEndian(n / 0x100, k - 1) + [(n % 0x100) as byte]
  }

  function Value(s: Blob): nat {
    if s == [] then 0 else Value(Init(s)) * 0x100 + Last(s) as nat
  }

  function Power(k: nat): nat {
    if k == 0 then 1 else 0x100 * Power(k - 1)
  }

  lemma {:induction false} ValueOfBigEndian(n: nat, k: nat)
    requires n < Power(k)
    ensures Value(BigEndian(n, k)) == n
  {
    if k > 0 {
      ValueOfBigEndian(n / 0x100, k - 1);
      assert Init(BigEndian(n, k)) == BigEndian(n / 0x100, k - 1);
    }
  }

  /** Four bytes, the highest first. */
  lemma FourBytes(n: nat)
    ensures var b := BigEndian(n, 4);
            && b[3] as nat == n % 0x100 && b[2] as nat == n / 0x100 % 0x100
            && b[1] as nat == n / 0x100 / 0x100 % 0x100 && b[0] as nat == n / 0x100 / 0x100 / 0x100 % 0x100
  {
    var b3, b2, b1 := BigEndian(n / 0x100, 3), BigEndian(n / 0x100 / 0x100, 2), BigEndian(n / 0x100 / 0x100 / 0x100, 1);
    assert b1 == [(n / 0x100 / 0x100 / 0x100 % 0x100) as byte];
    assert b2[0] == b1[0] && b3[..2] == b2 && b3[0] == b2[0] && b3[1] == b2[1];
    assert BigEndian(n, 4)[..3] == b3;
  }

  lemma {:induction false} ValueIsBounded(s: Blob)
    ensures Value(s) < Power(|s|)
  {
    if s != [] {
      ValueIsBounded(Init(s));
    }
  }

  lemma Powers()
    ensures Power(4) == TWO_TO_32 && Power(8) == TWO_TO_64
  {
    assert Power(2) == 0x1_0000;
    assert Power(4) == 0x100 * (0x100 * Power(2));
    assert Power(6) == 0x100 * (0x100 * Power(4));
    assert Power(8) == 0x100 * (0x100 * Power(6));
  }

  // ---- Encoding ----

  /** The length as a 32-bit number, then the bytes. */
  function Field(s: Blob): Blob {
    BigEndian(|s|, 4) + s
  }

  function MessageInput(m: Message): Blob {
    Field(m.room) + BigEndian(m.epoch, 8) + Field(m.contentType) + Field(m.ciphertext)
  }

  function PublisherInput(p: PublisherKey): Blob {
    Field(p.room) + BigEndian(p.epoch, 8) + p.key
  }

  method EncodeMessage(m: Message) returns (buf: Blob)
    ensures buf == MessageInput(m)
    ensures |buf| == 4 + |m.room| + 8 + 4 + |m.contentType| + 4 + |m.ciphertext|
  {
    buf := [];
    buf := buf + BigEndian(|m.room|, 4);
    buf := buf + m.room;
    buf := buf + BigEndian(m.epoch, 8);
    buf := buf + BigEndian(|m.contentType|, 4);
    buf := buf + m.contentType;
    buf := buf + BigEndian(|m.ciphertext|, 4);
    buf := buf + m.ciphertext;
    assert buf == MessageInput(m);
  }

  method EncodePublisherKey(p: PublisherKey) returns (buf: Blob)
    requires |p.key| == 32
    ensures buf == PublisherInput(p) && |buf| == 4 + |p.room| + 8 + 32
  {
    buf := [];
    buf := buf + BigEndian(|p.room|, 4);
    buf := buf + p.room;
    buf := buf + BigEndian(p.epoch, 8);
    buf := buf + p.key;
    assert buf == PublisherInput(p);
  }

  // ---- Parsing ----

  /** What was read, and what follows it. */
  datatype Parse<T> = Parsed(value: T, rest: Blob) | Malformed

  function ReadBytes(s: Blob, n: nat): Parse<Blob> {
    if n <= |s| then Parsed(s[..n], s[n..]) else Malformed
  }

  function ReadNumber(s: Blob, k: nat): Parse<nat> {
    match ReadBytes(s, k)
    case Malformed => Malformed
    case Parsed(bytes, rest) => Parsed(Value(bytes), rest)
  }

  function ReadField(s: Blob): Parse<Blob> {
    match ReadNumber(s, 4)
    case Malformed => Malformed
    case Parsed(n, rest) => ReadBytes(rest, n)
  }

  function ReadMessage(s: Blob): Parse<Message> {
    match ReadField(s)
    case Malformed => Malformed
    case Parsed(room, afterRoom) =>
      match ReadNumber(afterRoom, 8)
      case Malformed => Malformed
      case Parsed(epoch, afterEpoch) =>
        match ReadField(afterEpoch)
        case Malformed => Malformed
        case Parsed(contentType, afterType) =>
          match ReadField(afterType)
          case Malformed => Malformed
          case Parsed(ciphertext, rest) => Parsed(Message(room, epoch, contentType, ciphertext), rest)
  }

  function ReadPublisherKey(s: Blob): Parse<PublisherKey> {
    match ReadField(s)
    case Malformed => Malformed
    case Parsed(room, afterRoom) =>
      match ReadNumber(afterRoom, 8)
      case Malformed => Malformed
      case Parsed(epoch, afterEpoch) =>
        match ReadBytes(afterEpoch, 32)
        case Malformed => Malformed
        case Parsed(key, rest) => Parsed(PublisherKey(room, epoch, key), rest)
  }

  // ---- Reading back what was written ----

  predicate MessageFits(m: Message) {
    && |m.room| < TWO_TO_32 && |m.contentType| < TWO_TO_32 && |m.ciphertext| < TWO_TO_32
    && m.epoch < TWO_TO_64
  }

  predicate PublisherFits(p: PublisherKey) {
    |p.room| < TWO_TO_32 && p.epoch < TWO_TO_64 && |p.key| == 32
  }

  lemma NumberReadsBack(n: nat, k: nat, rest: Blob)
    requires n < Power(k)
    ensures ReadNumber(BigEndian(n, k) + rest, k) == Parsed(n, rest)
  {
    var s := BigEndian(n, k) + rest;
    assert s[..k] == BigEndian(n, k) && s[k..] == rest;
    ValueOfBigEndian(n, k);
  }

  lemma FieldReadsBack(s: Blob, rest: Blob)
    requires |s| < TWO_TO_32
    ensures ReadField(Field(s) + rest) == Parsed(s, rest)
  {
    Powers();
    NumberReadsBack(|s|, 4, s + rest);
    assert Field(s) + rest == BigEndian(|s|, 4) + (s + rest);
    assert (s + rest)[..|s|] == s && (s + rest)[|s|..] == rest;
  }

  lemma FittingMessageReadsBack(m: Message, rest: Blob)
    requires MessageFits(m)
    ensures ReadMessage(MessageInput(m) + rest) == Parsed(m, rest)
  {
    Powers();
    var afterType := Field(m.ciphertext) + rest;
    var afterEpoch := Field(m.contentType) + afterType;
    var afterRoom := BigEndian(m.epoch, 8) + afterEpoch;
    assert MessageInput(m) + rest == Field(m.room) + afterRoom;
    FieldReadsBack(m.room, afterRoom);
    NumberReadsBack(m.epoch, 8, afterEpoch);
    FieldReadsBack(m.contentType, afterType);
    FieldReadsBack(m.ciphertext, rest);
  }

  lemma ReadNumberIsBounded(s: Blob, k: nat)
    ensures ReadNumber(s, k).Parsed? ==> ReadNumber(s, k).value < Power(k)
  {
    if k <= |s| {
      ValueIsBounded(s[..k]);
    }
  }

  lemma ReadFieldFits(s: Blob)
    ensures ReadField(s).Parsed? ==> |ReadField(s).value| < TWO_TO_32
  {
    Powers();
    ReadNumberIsBounded(s, 4);
  }

  /** Whatever is read fits the widths of the fields. */
  lemma ReadMessageFits(s: Blob)
    ensures ReadMessage(s).Parsed? ==> MessageFits(ReadMessage(s).value)
  {
    if ReadMessage(s).Parsed? {
      Powers();
      ReadFieldFits(s);
      var afterRoom := ReadField(s).rest;
      ReadNumberIsBounded(afterRoom, 8);
      var afterEpoch := ReadNumber(afterRoom, 8).rest;
      ReadFieldFits(afterEpoch);
      ReadFieldFits(ReadField(afterEpoch).rest);
    }
  }

  lemma ReadPublisherKeyFits(s: Blob)
    ensures ReadPublisherKey(s).Parsed? ==> PublisherFits(ReadPublisherKey(s).value)
  {
    if ReadPublisherKey(s).Parsed? {
      Powers();
      ReadFieldFits(s);
      ReadNumberIsBounded(ReadField(s).rest, 8);
    }
  }

  /** A message is recovered from its encoding, whatever follows it, exactly when its fields fit their prefixes. */
  lemma MessageReadsBack(m: Message, rest: Blob)
    ensures ReadMessage(MessageInput(m) + rest) == Parsed(m, rest) <==> MessageFits(m)
  {
    ReadMessageFits(MessageInput(m) + rest);
    if MessageFits(m) {
      FittingMessageReadsBack(m, rest);
    }
  }

  lemma PublisherKeyReadsBack(p: PublisherKey, rest: Blob)
    ensures ReadPublisherKey(PublisherInput(p) + rest) == Parsed(p, rest) <==> PublisherFits(p)
  {
    ReadPublisherKeyFits(PublisherInput(p) + rest);
    if PublisherFits(p) {
      Powers();
      var afterEpoch := p.key + rest;
      var afterRoom := BigEndian(p.epoch, 8) + afterEpoch;
      assert PublisherInput(p) + rest == Field(p.room) + afterRoom;
      FieldReadsBack(p.room, afterRoom);
      NumberReadsBack(p.epoch, 8, afterEpoch);
      assert afterEpoch[..32] == p.key && afterEpoch[32..] == rest;
    }
  }

  /** No encoding of a message begins with that of another. */
  lemma MessagesArePrefixFree(a: Message, b: Message)
    requires MessageFits(a) && MessageFits(b)
    ensures MessageInput(a) <= MessageInput(b) <==> a == b
  {
    if MessageInput(a) <= MessageInput(b) {
      var rest := MessageInput(b)[|MessageInput(a)|..];
      assert MessageInput(b) == MessageInput(a) + rest && MessageInput(b) == MessageInput(b) + [];
      MessageReadsBack(a, rest);
      MessageReadsBack(b, []);
    }
  }

  lemma PublisherKeysArePrefixFree(a: PublisherKey, b: PublisherKey)
    requires PublisherFits(a) && PublisherFits(b)
    ensures PublisherInput(a) <= PublisherInput(b) <==> a == b
  {
    if PublisherInput(a) <= PublisherInput(b) {
      var rest := PublisherInput(b)[|PublisherInput(a)|..];
      assert PublisherInput(b) == PublisherInput(a) + rest && PublisherInput(b) == PublisherInput(b) + [];
      PublisherKeyReadsBack(a, rest);
      PublisherKeyReadsBack(b, []);
    }
  }

  /** A field that is too long is read as its beginning, and the rest of it is taken for what follows. */
  lemma LongFieldIsCutShort(s: Blob, rest: Blob)
    ensures ReadField(Field(s) + rest).Parsed?
    ensures var read := ReadField(Field(s) + rest);
            && |read.value| < TWO_TO_32 && read.value + read.rest == s + rest
            && (read.value == s <==> |s| < TWO_TO_32)
  {
    Powers();
    ValueIsBounded(BigEndian(|s|, 4));
    var all := Field(s) + rest;
    var n := Value(BigEndian(|s|, 4));
    assert all[..4] == BigEndian(|s|, 4) && all[4..] == s + rest;
    if |s| < TWO_TO_32 {
      FieldReadsBack(s, rest);
    }
    assert (s + rest)[..n] + (s + rest)[n..] == s + rest;
  }
}
