/** Addresses: a tag and data with a checksum, as text. */
module Addresses {
  import opened ChainTypes
  import opened Numerals
  import Base58
  import Varints

  type Hash32 = s: seq<Byte> | |s| == 32 witness seq(32, _ => 0)

  type Hasher = seq<Byte> -> Hash32

  const CHECKSUM_SIZE := 4

  function Checked(payload: seq<Byte>, hash: Hasher): seq<Byte> {
    payload + hash(payload)[..CHECKSUM_SIZE]
  }

  method EncodeAddr(tag: nat, data: seq<Byte>, hash: Hasher) returns (s: string)
    ensures s == Base58.Encoded(Checked(Varints.Written(tag) + data, hash))
  {
    var buf := Varints.WriteVarint(tag);
    buf := buf + data;
    s := Base58.Encode(buf + hash(buf)[..CHECKSUM_SIZE]);
  }

  datatype Address = Address(tag: nat, data: seq<Byte>)

  /** The bytes that an address carries, if its text and its checksum are right. */
  function Payload(s: string, hash: Hasher): Option<seq<Byte>> {
    match Base58.Decoded(s)
    case None => None
    case Some(bytes) =>
      if |bytes| <= CHECKSUM_SIZE then None
      else
        var payload, checksum := bytes[..|bytes| - CHECKSUM_SIZE], bytes[|bytes| - CHECKSUM_SIZE..];
        if hash(payload)[..CHECKSUM_SIZE] != checksum then None else Some(payload)
  }

  function Parsed(s: string, hash: Hasher): Option<Address> {
    match Payload(s, hash)
    case None => None
    case Some(payload) =>
      var r := Varints.ReadFrom(payload, 0, 0);
      if r.count <= 0 || r.count > |payload| then None else Some(Address(r.value, payload[r.count..]))
  }

  method DecodeAddr(s: string, hash: Hasher) returns (r: Option<Address>)
    ensures r == Parsed(s, hash)
  {
    hide Base58.Decoded, Varints.ReadFrom;
    var ok, bytes := Base58.Decode(s);
    if !ok || |bytes| <= CHECKSUM_SIZE {
      return None;
    }
    var payload, checksum := bytes[..|bytes| - CHECKSUM_SIZE], bytes[|bytes| - CHECKSUM_SIZE..];
    if hash(payload)[..CHECKSUM_SIZE] != checksum {
      return None;
    }
    var reading := Varints.ReadVarint(payload);
    if reading.count <= 0 {
      return None;
    }
    ReadWithin(payload);
    return Some(Address(reading.value, payload[reading.count..]));
  }

  lemma {:induction false} ReadWithin(payload: seq<Byte>)
    requires payload != [] && Varints.ReadFrom(payload, 0, 0).count > 0
    ensures Varints.ReadFrom(payload, 0, 0).count <= |payload|
  {
    Varints.ReadIsCanonical(payload);
  }

  /** Whatever the hash function: an address decodes to the tag and the data it was made of. */
  lemma {:induction false} DecodeUndoesEncode(tag: nat, data: seq<Byte>, hash: Hasher)
    requires tag < UINT64_RANGE
    ensures Parsed(Base58.Encoded(Checked(Varints.Written(tag) + data, hash)), hash) == Some(Address(tag, data))
  {
    hide Base58.Decoded, Base58.Encoded, Varints.ReadFrom, Varints.Written;
    var payload := Varints.Written(tag) + data;
    var bytes := Checked(payload, hash);
    Base58.DecodeUndoesEncode(bytes);
    assert bytes[..|bytes| - CHECKSUM_SIZE] == payload;
    assert bytes[|bytes| - CHECKSUM_SIZE..] == hash(payload)[..CHECKSUM_SIZE];
    Varints.ReadUndoesWrite(tag, data);
    assert payload[|Varints.Written(tag)|..] == data;
  }

  /** An accepted address is the encoding of what it decodes to, except those that carry no byte that ends a number:
      these are accepted, too, and decode like another address. */
  lemma {:induction false} EncodeUndoesDecode(s: string, hash: Hasher)
    requires Parsed(s, hash).Some?
    ensures var a, payload := Parsed(s, hash).value, Payload(s, hash).value;
            Base58.Encoded(Checked(Varints.Written(a.tag) + a.data, hash)) == s <==>
                exists i | 0 <= i < |payload| :: payload[i] < 128
  {
    hide Base58.Decoded, Base58.Encoded, Varints.ReadFrom, Varints.Written;
    var a, payload, bytes := Parsed(s, hash).value, Payload(s, hash).value, Base58.Decoded(s).value;
    var r := Varints.ReadFrom(payload, 0, 0);
    Varints.ReadIsCanonical(payload);
    Varints.AllButLastMarked(payload, 0, 0);
    Base58.EncodeUndoesDecode(s);
    assert payload == payload[..r.count] + a.data;
    assert bytes == Checked(payload, hash);
    var again := Varints.Written(a.tag) + a.data;
    if payload[r.count - 1] >= 128 {
      var _ := Varints.WriteUndoesRead(payload, 0, 0);
      assert a.data == [];
      assert again != payload;
      Base58.DecodeUndoesEncode(Checked(again, hash));
      CheckedFront(again, hash);
      CheckedFront(payload, hash);
    }
  }

  lemma {:induction false} CheckedFront(a: seq<Byte>, hash: Hasher)
    ensures Checked(a, hash)[..|Checked(a, hash)| - CHECKSUM_SIZE] == a
  {
  }

  /** One that does: a checksum over a byte that says another follows, and none does. */
  lemma {:induction false} CutOffAddress(hash: Hasher)
    ensures var s := Base58.Encoded(Checked([0x80], hash));
            && Parsed(s, hash) == Some(Address(0, []))
            && s != Base58.Encoded(Checked(Varints.Written(0), hash))
  {
    var s := Base58.Encoded(Checked([0x80], hash));
    Base58.DecodeUndoesEncode(Checked([0x80], hash));
    var bytes := Checked([0x80], hash);
    assert bytes[..|bytes| - CHECKSUM_SIZE] == [0x80]
        && bytes[|bytes| - CHECKSUM_SIZE..] == hash([0x80])[..CHECKSUM_SIZE];
    assert Varints.ReadFrom([0x80], 0, 0) == Varints.ReadFrom([0x80], 1, 0);
    assert Payload(s, hash) == Some([0x80]);
    EncodeUndoesDecode(s, hash);
    assert Varints.Written(0) + [] == Varints.Written(0);
  }
}
