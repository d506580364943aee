/** The superblock that opens every metadata zone. */
module SuperblockCodec {
  import opened Coding

  const MAGIC: nat := 0x5a45_4e46
  const ENCODED_SIZE: nat := 512
  const CURRENT_VERSION: nat := 2

  datatype Superblock = Superblock(
    magic: nat, uuid: seq<byte>, sequence: nat, version: nat, flags: nat,
    blockSize: nat, zoneSize: nat, nrZones: nat, finishThreshold: nat,
    auxPath: seq<byte>, zenfsVersion: seq<byte>, reserved: seq<byte>)

  /** The C++ object: 32-bit integers and fixed-size character arrays. */
  predicate Representable(b: Superblock) {
    && U32(b.magic) && U32(b.sequence) && U32(b.version) && U32(b.flags)
    && U32(b.blockSize) && U32(b.zoneSize) && U32(b.nrZones) && U32(b.finishThreshold)
    && |b.uuid| == 37 && |b.auxPath| == 256 && |b.zenfsVersion| == 64 && |b.reserved| == 123
  }

  /** EncodeTo first increases the 32-bit sequence number. */
  function Bumped(b: Superblock): Superblock {
    b.(sequence := (b.sequence + 1) % 0x1_0000_0000)
  }

  function Numbers(b: Superblock): (r: seq<byte>)
    ensures |r| == 28
  {
    PutFixed(4, b.sequence) + (PutFixed(4, b.version) + (PutFixed(4, b.flags) +
    (PutFixed(4, b.blockSize) + (PutFixed(4, b.zoneSize) + (PutFixed(4, b.nrZones) +
    PutFixed(4, b.finishThreshold))))))
  }

  function Layout(b: Superblock): seq<byte> {
    PutFixed(4, b.magic) + b.uuid + Numbers(b) + b.auxPath + b.zenfsVersion + b.reserved
  }

  /** Superblock::EncodeTo: the new state of the superblock and its bytes. */
  function Encode(b: Superblock): (Superblock, seq<byte>) {
    (Bumped(b), Layout(Bumped(b)))
  }

  datatype Decoded = Valid(block: Superblock) | SizeMismatch | MagicMismatch | VersionMismatch

  function U32At(s: seq<byte>, i: nat): nat
    requires i + 4 <= |s|
  {
    FixedValue(s[i..i + 4])
  }

  /** Superblock::DecodeFrom. */
  function Decode(s: seq<byte>): Decoded {
    if |s| != ENCODED_SIZE then SizeMismatch
    else
      var b := Superblock(
        U32At(s, 0), s[4..41], U32At(s, 41), U32At(s, 45), U32At(s, 49), U32At(s, 53),
        U32At(s, 57), U32At(s, 61), U32At(s, 65), s[69..325], s[325..389], s[389..512]);
      if b.magic != MAGIC then MagicMismatch
      else if b.version != CURRENT_VERSION then VersionMismatch
      else Valid(b)
  }

  /** Reading back the number at the front of a concatenation at offset `i`. */
  lemma NumberAt(s: seq<byte>, i: nat, v: nat, rest: seq<byte>)
    requires U32(v) && i <= |s|
    requires s[i..] == PutFixed(4, v) + rest
    ensures i + 4 <= |s| && U32At(s, i) == v && s[i + 4..] == rest
  {
    Pow256Values();
    FixedValueOfPut(4, v);
    assert |s[i..]| >= 4;
    assert s[i..i + 4] == s[i..][..4] == PutFixed(4, v);
    assert s[i + 4..] == s[i..][4..] == rest;
  }

  lemma NumbersAt(s: seq<byte>, b: Superblock, rest: seq<byte>)
    requires Representable(b)
    requires |s| >= 41 && s[41..] == Numbers(b) + rest
    ensures |s| >= 69 && s[69..] == rest
    ensures U32At(s, 41) == b.sequence && U32At(s, 45) == b.version && U32At(s, 49) == b.flags
    ensures U32At(s, 53) == b.blockSize && U32At(s, 57) == b.zoneSize && U32At(s, 61) == b.nrZones
    ensures U32At(s, 65) == b.finishThreshold
  {
    hide PutFixed, FixedValue;
    var t6 := PutFixed(4, b.finishThreshold) + rest;
    var t5 := PutFixed(4, b.nrZones) + t6;
    var t4 := PutFixed(4, b.zoneSize) + t5;
    var t3 := PutFixed(4, b.blockSize) + t4;
    var t2 := PutFixed(4, b.flags) + t3;
    var t1 := PutFixed(4, b.version) + t2;
    assert s[41..] == PutFixed(4, b.sequence) + t1;
    NumberAt(s, 41, b.sequence, t1);
    NumberAt(s, 45, b.version, t2);
    NumberAt(s, 49, b.flags, t3);
    NumberAt(s, 53, b.blockSize, t4);
    NumberAt(s, 57, b.zoneSize, t5);
    NumberAt(s, 61, b.nrZones, t6);
    NumberAt(s, 65, b.finishThreshold, rest);
  }

  lemma LayoutRoundTrip(b: Superblock)
    requires Representable(b)
    ensures |Layout(b)| == ENCODED_SIZE
    ensures Decode(Layout(b)) ==
      if b.magic != MAGIC then MagicMismatch
      else if b.version != CURRENT_VERSION then VersionMismatch
      else Valid(b)
  {
    hide PutFixed, FixedValue, Numbers;
    var s := Layout(b);
    var tail := b.auxPath + b.zenfsVersion + b.reserved;
    assert s[0..] == s == PutFixed(4, b.magic) + (b.uuid + Numbers(b) + tail);
    NumberAt(s, 0, b.magic, b.uuid + Numbers(b) + tail);
    assert s[4..41] == s[4..][..37] == b.uuid;
    assert s[41..] == s[4..][37..] == Numbers(b) + tail;
    NumbersAt(s, b, tail);
    assert s[69..325] == s[69..][..256] == b.auxPath;
    assert s[325..389] == s[69..][256..320] == b.zenfsVersion;
    assert s[389..512] == s[69..][320..443] == b.reserved;
  }

  /** The fields of 512 bytes, whatever they are. */
  lemma FieldsOf(s: seq<byte>) returns (b: Superblock)
    requires |s| == ENCODED_SIZE
    ensures Representable(b) && s == Layout(b)
  {
    b := Superblock(
      U32At(s, 0), s[4..41], U32At(s, 41), U32At(s, 45), U32At(s, 49), U32At(s, 53),
      U32At(s, 57), U32At(s, 61), U32At(s, 65), s[69..325], s[325..389], s[389..512]);
    NumberIs(s, 0);
    NumberIs(s, 41);
    NumberIs(s, 45);
    NumberIs(s, 49);
    NumberIs(s, 53);
    NumberIs(s, 57);
    NumberIs(s, 61);
    NumberIs(s, 65);
    hide PutFixed, U32At;
    assert Numbers(b) == s[41..69];
    assert Layout(b) == s[0..4] + s[4..41] + s[41..69] + s[69..325] + s[325..389] + s[389..512];
  }

  lemma NumberIs(s: seq<byte>, i: nat)
    requires i + 4 <= |s|
    ensures U32(U32At(s, i)) && PutFixed(4, U32At(s, i)) == s[i..i + 4]
  {
    Pow256Values();
    PutOfFixedValue(s[i..i + 4]);
  }

  /** Bytes are accepted as a superblock if and only if they are the 512 bytes of one with the magic
      number and the version of the file system. */
  lemma DecodesIff(s: seq<byte>, b: Superblock)
    ensures Decode(s) == Valid(b) <==>
      Representable(b) && b.magic == MAGIC && b.version == CURRENT_VERSION && s == Layout(b)
    ensures Decode(s) == SizeMismatch <==> |s| != ENCODED_SIZE
  {
    if |s| == ENCODED_SIZE {
      var own := FieldsOf(s);
      LayoutRoundTrip(own);
      if Representable(b) && s == Layout(b) { LayoutRoundTrip(b); }
    } else if Representable(b) {
      LayoutRoundTrip(b);
    }
  }

  /** The 512 bytes of a superblock decode to the superblock with its sequence number
      increased by one (modulo 2^32), which is also what stays in memory. */
  lemma SuperblockRoundTrip(b: Superblock)
    requires Representable(b) && b.magic == MAGIC && b.version == CURRENT_VERSION
    ensures var (b', s) := Encode(b);
            |s| == ENCODED_SIZE && Decode(s) == Valid(b')
    ensures b.sequence < 0xFFFF_FFFF ==> Encode(b).0 == b.(sequence := b.sequence + 1)
  {
    LayoutRoundTrip(Bumped(b));
  }
}
