/**
 Header and content framing: the fixed 192-byte header of cyber/message/message_header.h
 with its fields in network byte order (Appendix B of RFC 791), and SerializeToHC and
 ParseFromHC of cyber/message/message_traits.h for raw messages (cyber/message/raw_message.h).
 */
module Framing {
  import opened Options

  type byte = x: int | 0 <= x < 256
  type uint32 = x: int | 0 <= x < 0x1_0000_0000
  type uint64 = x: int | 0 <= x < 0x1_0000_0000_0000_0000
  type int32 = x: int | -0x8000_0000 <= x < 0x8000_0000

  // ----- numbers in network byte order -----

  function To32(n: uint32): seq<byte> {
    [n / 0x100_0000, n / 0x1_0000 % 0x100, n / 0x100 % 0x100, n % 0x100]
  }

  function From32(b: seq<byte>): uint32
    requires |b| == 4
  {
    var b0: int, b1: int, b2: int, b3: int := b[0], b[1], b[2], b[3];
    ((b0 * 0x100 + b1) * 0x100 + b2) * 0x100 + b3
  }

  function To64(n: uint64): seq<byte> {
    To32(n / 0x1_0000_0000) + To32(n % 0x1_0000_0000)
  }

  function From64(b: seq<byte>): uint64
    requires |b| == 8
  {
    From32(b[..4]) * 0x1_0000_0000 + From32(b[4..])
  }

  lemma RoundTrip32(n: uint32)
    ensures |To32(n)| == 4 && From32(To32(n)) == n
  {
    var b2, b1 := n / 0x100, n / 0x1_0000;
    assert n == b2 * 0x100 + n % 0x100;
    assert b2 == b1 * 0x100 + b2 % 0x100;
    assert b1 == (n / 0x100_0000) * 0x100 + b1 % 0x100;
  }

  lemma RoundTrip64(n: uint64)
    ensures |To64(n)| == 8 && From64(To64(n)) == n
  {
    var high, low := n / 0x1_0000_0000, n % 0x1_0000_0000;
    RoundTrip32(high);
    RoundTrip32(low);
    assert To64(n)[..4] == To32(high) && To64(n)[4..] == To32(low);
  }

  /** The number whose bytes these are, most significant byte first. */
  function BigEndian(b: seq<byte>): nat {
    if b == [] then 0 else BigEndian(b[..|b| - 1]) * 256 + b[|b| - 1]
  }

  /** Network byte order is most significant byte first. */
  lemma NetworkOrder32(n: uint32)
    ensures BigEndian(To32(n)) == n
  {
    RoundTrip32(n);
    var b := To32(n);
    assert b[..3][..2] == b[..2] && b[..2][..1] == b[..1] && b[..1][..0] == [];
    assert BigEndian(b[..1]) == b[0];
    assert BigEndian(b[..2]) == BigEndian(b[..1]) * 256 + b[1];
    assert BigEndian(b[..3]) == BigEndian(b[..2]) * 256 + b[2];
  }

  lemma {:induction false} BigEndianConcat(a: seq<byte>, b: seq<byte>)
    requires |b| == 4
    ensures BigEndian(a + b) == BigEndian(a) * 0x1_0000_0000 + BigEndian(b)
  {
    var c := a + b;
    assert c[..|c| - 1] == a + b[..3] && (a + b[..3])[..|a| + 2] == a + b[..2];
    assert (a + b[..2])[..|a| + 1] == a + b[..1] && (a + b[..1])[..|a|] == a;
    assert b[..3][..2] == b[..2] && b[..2][..1] == b[..1] && b[..1][..0] == [];
    var x := BigEndian(a);
    assert BigEndian(a + b[..1]) == x * 256 + b[0] && BigEndian(b[..1]) == b[0];
    assert BigEndian(a + b[..2]) == BigEndian(a + b[..1]) * 256 + b[1];
    assert BigEndian(b[..2]) == BigEndian(b[..1]) * 256 + b[1];
    assert BigEndian(a + b[..3]) == BigEndian(a + b[..2]) * 256 + b[2];
    assert BigEndian(b[..3]) == BigEndian(b[..2]) * 256 + b[2];
  }

  lemma NetworkOrder64(n: uint64)
    ensures BigEndian(To64(n)) == n
  {
    var high, low := n / 0x1_0000_0000, n % 0x1_0000_0000;
    NetworkOrder32(high);
    NetworkOrder32(low);
    BigEndianConcat(To32(high), To32(low));
  }

  // ----- the header -----

  datatype Field = Magic | Seq | TimestampNs | SrcId | DstId | MsgType | Res | ContentSize

  const HEADER_SIZE: nat := 192

  function Size(f: Field): nat {
    match f
    case MsgType => 129
    case Res => 19
    case ContentSize => 4
    case _ => 8
  }

  function Offset(f: Field): nat {
    match f
    case Magic => 0
    case Seq => 8
    case TimestampNs => 16
    case SrcId => 24
    case DstId => 32
    case MsgType => 40
    case Res => 169
    case ContentSize => 188
  }

  /** Replaces the bytes from off on. */
  function Splice(s: seq<byte>, off: nat, b: seq<byte>): (r: seq<byte>)
    requires off + |b| <= |s|
    ensures |r| == |s|
  {
    s[..off] + b + s[off + |b|..]
  }

  /** The bytes of a field. */
  function Get(header: seq<byte>, f: Field): seq<byte>
    requires |header| == HEADER_SIZE
  {
    header[Offset(f)..Offset(f) + Size(f)]
  }

  /** The fields, in the order of their declaration, make up the header. */
  lemma Layout(header: seq<byte>)
    requires |header| == HEADER_SIZE
    ensures header == Get(header, Magic) + Get(header, Seq) + Get(header, TimestampNs) + Get(header, SrcId)
                      + Get(header, DstId) + Get(header, MsgType) + Get(header, Res) + Get(header, ContentSize)
  {}

  /** Writing a field sets it and disturbs no other: the fields share no byte. */
  lemma PutGet(header: seq<byte>, f: Field, b: seq<byte>, g: Field)
    requires |header| == HEADER_SIZE && |b| == Size(f)
    ensures Get(Splice(header, Offset(f), b), g) == if f == g then b else Get(header, g)
  {
    SpliceSlice(header, Offset(f), b, Offset(g), Offset(g) + Size(g));
  }

  lemma SpliceSlice(s: seq<byte>, off: nat, b: seq<byte>, lo: nat, hi: nat)
    requires off + |b| <= |s| && lo <= hi <= |s|
    ensures hi <= off || off + |b| <= lo ==> Splice(s, off, b)[lo..hi] == s[lo..hi]
    ensures Splice(s, off, b)[off..off + |b|] == b
  {
    if hi <= off {
      assert Splice(s, off, b)[lo..hi] == s[..off][lo..hi];
    } else if off + |b| <= lo {
      assert forall i | lo <= i < hi :: Splice(s, off, b)[i] == s[i];
    }
  }

  function Zeros(n: nat): seq<byte> {
    seq(n, _ => 0)
  }

  /** memcpy into an array. */
  method Copy(a: array<byte>, off: nat, b: seq<byte>)
    requires off + |b| <= a.Length
    modifies a
    ensures a[..] == Splice(old(a[..]), off, b)
  {
    for i := 0 to |b|
      invariant forall j | 0 <= j < a.Length :: a[j] == if off <= j < off + i then b[j - off] else old(a[j])
    {
      a[off + i] := b[i];
    }
    ghost var r := Splice(old(a[..]), off, b);
    assert forall j | 0 <= j < a.Length :: a[j] == r[j];
  }

  /** What set_msg_type leaves in the field: at most 128 bytes of the name, then zeros. */
  function TypeField(name: seq<byte>): (r: seq<byte>)
    ensures |r| == Size(MsgType)
  {
    if |name| >= Size(MsgType) then name[..Size(MsgType) - 1] + Zeros(1)
    else name + Zeros(Size(MsgType) - |name|)
  }

  /** Reading the field as a C string. */
  function CString(b: seq<byte>): seq<byte> {
    if b == [] || b[0] == 0 then [] else [b[0]] + CString(b[1..])
  }

  lemma {:induction false} CStringOf(name: seq<byte>, n: nat)
    requires 0 !in name && n > 0
    ensures CString(name + Zeros(n)) == name
  {
    var b := name + Zeros(n);
    if name != [] {
      CStringOf(name[1..], n);
      assert b[0] == name[0] && b[1..] == name[1..] + Zeros(n);
    }
  }

  /** A type name without a zero byte reads back cut to 128 bytes: the field is always
      terminated. */
  lemma TypeNameReadsBack(name: seq<byte>)
    requires 0 !in name
    ensures CString(TypeField(name)) == if |name| <= 128 then name else name[..128]
  {
    if |name| >= Size(MsgType) {
      CStringOf(name[..Size(MsgType) - 1], 1);
    } else {
      CStringOf(name, Size(MsgType) - |name|);
    }
  }

  lemma TypeFieldIs(name: seq<byte>, len: nat)
    requires len == if |name| >= Size(MsgType) then Size(MsgType) - 1 else |name|
    ensures TypeField(name) == name[..len] + Zeros(Size(MsgType) - len)
  {}

  /** Clearing n bytes and then writing fewer of them. */
  lemma SpliceTwice(s: seq<byte>, off: nat, n: nat, b: seq<byte>)
    requires off + n <= |s| && |b| <= n
    ensures Splice(Splice(s, off, Zeros(n)), off, b) == Splice(s, off, b + Zeros(n - |b|))
  {}

  const MAGIC: seq<byte> := [66, 68, 65, 67, 66, 68, 65, 67] // "BDACBDAC"

  class MessageHeader {
    const bytes: array<byte>

    ghost predicate Valid()
      reads this
    {
      bytes.Length == HEADER_SIZE
    }

    constructor ()
      ensures Valid() && fresh(bytes)
      ensures bytes[..] == MAGIC + Zeros(HEADER_SIZE - Size(Magic))
    {
      bytes := new byte[HEADER_SIZE](_ => 0);
      new;
      assert bytes[..] == Zeros(HEADER_SIZE);
      Copy(bytes, Offset(Magic), MAGIC);
    }

    /** set_seq, set_timestamp_ns, set_src_id and set_dst_id. */
    method Set64(f: Field, v: uint64)
      requires Valid() && f in {Seq, TimestampNs, SrcId, DstId}
      modifies bytes
      ensures Get64(f) == v && forall g: Field | g != f :: Get(bytes[..], g) == old(Get(bytes[..], g))
      ensures BigEndian(Get(bytes[..], f)) == v
    {
      ghost var was := bytes[..];
      Copy(bytes, Offset(f), To64(v));
      RoundTrip64(v);
      NetworkOrder64(v);
      forall g: Field ensures Get(bytes[..], g) == if g == f then To64(v) else Get(was, g) {
        PutGet(was, f, To64(v), g);
      }
    }

    function Get64(f: Field): uint64
      requires Valid() && f in {Seq, TimestampNs, SrcId, DstId}
      reads this, bytes
    {
      From64(Get(bytes[..], f))
    }

    method SetContentSize(v: uint32)
      requires Valid()
      modifies bytes
      ensures GetContentSize() == v && forall g: Field | g != ContentSize :: Get(bytes[..], g) == old(Get(bytes[..], g))
      ensures bytes[..] == Splice(old(bytes[..]), Offset(ContentSize), To32(v))
    {
      ghost var was := bytes[..];
      Copy(bytes, Offset(ContentSize), To32(v));
      RoundTrip32(v);
      forall g: Field ensures Get(bytes[..], g) == if g == ContentSize then To32(v) else Get(was, g) {
        PutGet(was, ContentSize, To32(v), g);
      }
    }

    function GetContentSize(): uint32
      requires Valid()
      reads this, bytes
    {
      From32(Get(bytes[..], ContentSize))
    }

    /** An empty name changes nothing. */
    method SetMsgType(name: seq<byte>)
      requires Valid()
      modifies bytes
      ensures name == [] ==> bytes[..] == old(bytes[..])
      ensures name != [] ==> bytes[..] == Splice(old(bytes[..]), Offset(MsgType), TypeField(name))
      ensures forall g: Field | g != MsgType :: Get(bytes[..], g) == old(Get(bytes[..], g))
    {
      if name == [] {
        return;
      }
      var len := if |name| >= Size(MsgType) then Size(MsgType) - 1 else |name|;
      ghost var was := bytes[..];
      Copy(bytes, Offset(MsgType), Zeros(Size(MsgType)));
      Copy(bytes, Offset(MsgType), name[..len]);
      SpliceTwice(was, Offset(MsgType), Size(MsgType), name[..len]);
      TypeFieldIs(name, len);
      forall g: Field ensures g != MsgType ==> Get(bytes[..], g) == Get(was, g) {
        PutGet(was, MsgType, TypeField(name), g);
      }
    }
  }

  // ----- header and content -----

  /** The header SerializeToHC puts before a content of n bytes. */
  function HeaderOf(typeName: seq<byte>, n: uint32): (r: seq<byte>)
    ensures |r| == HEADER_SIZE
  {
    var blank := MAGIC + Zeros(HEADER_SIZE - Size(Magic));
    var typed := if typeName == [] then blank else Splice(blank, Offset(MsgType), TypeField(typeName));
    Splice(typed, Offset(ContentSize), To32(n))
  }

  lemma HeaderFields(typeName: seq<byte>, n: uint32)
    ensures From32(Get(HeaderOf(typeName, n), ContentSize)) == n
    ensures Get(HeaderOf(typeName, n), Magic) == MAGIC
    ensures Get(HeaderOf(typeName, n), MsgType) == TypeField(typeName)
  {
    var blank := MAGIC + Zeros(HEADER_SIZE - Size(Magic));
    var typed := Splice(blank, Offset(MsgType), TypeField(typeName));
    RoundTrip32(n);
    assert Get(blank, Magic) == MAGIC && Get(blank, MsgType) == Zeros(Size(MsgType));
    PutGet(blank, MsgType, TypeField(typeName), Magic);
    PutGet(blank, MsgType, TypeField(typeName), MsgType);
    var h := if typeName == [] then blank else typed;
    assert typeName == [] ==> TypeField(typeName) == Zeros(Size(MsgType));
    PutGet(h, ContentSize, To32(n), ContentSize);
    PutGet(h, ContentSize, To32(n), Magic);
    PutGet(h, ContentSize, To32(n), MsgType);
  }

  /** Bytes 188 to 191 of a header are the content size, most significant byte first; the magic
      number is in bytes 0 to 7, and the type name, cut and terminated, in bytes 40 to 168. */
  lemma HeaderBytes(typeName: seq<byte>, n: uint32)
    ensures var h := HeaderOf(typeName, n);
            && |h| == 192 && h[..8] == MAGIC && BigEndian(h[188..192]) == n
            && (forall i | 40 <= i < 169 :: h[i] == if i - 40 < |typeName| && i < 168 then typeName[i - 40] else 0)
            && forall i | 8 <= i < 40 || 169 <= i < 188 :: h[i] == 0
  {
    HeaderFields(typeName, n);
    NetworkOrder32(n);
    BlankBytes(typeName, n);
    var h := HeaderOf(typeName, n);
    assert Get(h, ContentSize) == h[188..192] && Get(h, Magic) == h[..8] && Get(h, MsgType) == h[40..169];
    assert h[188..192] == To32(n);
    assert forall i | 40 <= i < 169 :: h[i] == h[40..169][i - 40];
  }

  lemma BlankBytes(typeName: seq<byte>, n: uint32)
    ensures forall i | 8 <= i < 40 || 169 <= i < 188 :: HeaderOf(typeName, n)[i] == 0
  {}

  /** A framed message. */
  function Frame(typeName: seq<byte>, content: seq<byte>): seq<byte>
    requires |content| < 0x8000_0000
  {
    HeaderOf(typeName, |content|) + content
  }

  lemma SpliceHead(s: seq<byte>, h: seq<byte>)
    requires |h| <= |s|
    ensures Splice(s, 0, h) == h + s[|h|..]
  {}

  lemma SpliceAfter(h: seq<byte>, rest: seq<byte>, c: seq<byte>)
    requires |c| <= |rest|
    ensures Splice(h + rest, |h|, c) == h + c + rest[|c|..]
  {}

  /** ByteSize of a raw message: the size cast to an int, negative from 2 GiB on. */
  function ByteSize(content: seq<byte>): (r: int32)
    requires |content| < 0x1_0000_0000
    ensures r < 0 <==> |content| >= 0x8000_0000
  {
    if |content| < 0x8000_0000 then |content| else |content| - 0x1_0000_0000
  }

  /** The buffer has the bytes that SerializeToHC may write for this size: a negative one is
      taken for a very large one, and its header is written. */
  ghost predicate Buffer(length: nat, size: int32) {
    -0x8000_0000 + HEADER_SIZE <= size <= length && (size < 0 ==> HEADER_SIZE <= length)
  }

  /** Writes header and content into the first `size` bytes of data.  Without room for the
      content the header is written all the same. */
  method SerializeToHC(typeName: seq<byte>, content: seq<byte>, data: array<byte>, size: int32) returns (ok: bool)
    requires Buffer(data.Length, size) && |content| < 0x1_0000_0000
    modifies data
    ensures ok <==> |content| < 0x8000_0000 && HEADER_SIZE + |content| <= size
    ensures ok ==> data[..] == Frame(typeName, content) + old(data[..])[HEADER_SIZE + |content|..]
    ensures |content| >= 0x8000_0000 || 0 <= size < HEADER_SIZE ==> data[..] == old(data[..])
    ensures !ok && |content| < 0x8000_0000 && (size < 0 || HEADER_SIZE <= size) ==>
              data[..] == HeaderOf(typeName, |content|) + old(data[..])[HEADER_SIZE..]
  {
    var msgSize := ByteSize(content);
    if msgSize < 0 {
      return false;
    }
    var header := new MessageHeader();
    header.SetMsgType(typeName);
    header.SetContentSize(msgSize);
    var unsigned := if size < 0 then size + 0x1_0000_0000_0000_0000 else size;
    if HEADER_SIZE > unsigned {
      return false;
    }
    ghost var was := data[..];
    Copy(data, 0, header.bytes[..]);
    SpliceHead(was, header.bytes[..]);
    if size - HEADER_SIZE < msgSize {
      return false;
    }
    SpliceAfter(header.bytes[..], was[HEADER_SIZE..], content);
    Copy(data, HEADER_SIZE, content);
    ok := true;
  }

  /** What ParseFromHC makes of the bytes given to it. */
  function Parse(bytes: seq<byte>): Option<seq<byte>> {
    if |bytes| < HEADER_SIZE then None
    else
      var n := From32(Get(bytes[..HEADER_SIZE], ContentSize));
      if |bytes| - HEADER_SIZE < n || n == 0 then None
      else Some(bytes[HEADER_SIZE..HEADER_SIZE + n])
  }

  lemma From32Is(b: seq<byte>)
    requires |b| == 4
    ensures From32(b) == BigEndian(b)
  {
    assert b[..3][..2] == b[..2] && b[..2][..1] == b[..1] && b[..1][..0] == [];
    assert BigEndian(b[..1]) == b[0];
    assert BigEndian(b[..2]) == BigEndian(b[..1]) * 256 + b[1];
    assert BigEndian(b[..3]) == BigEndian(b[..2]) * 256 + b[2];
  }

  /** For any bytes at all: they are accepted if and only if there are 192 bytes of header and at
      least as many after it as bytes 188 to 191 declare, most significant byte first, and that
      is not zero; the content is then the first so many after the header. */
  lemma ParseIff(bytes: seq<byte>)
    ensures Parse(bytes).Some? <==> |bytes| >= 192 && 0 < BigEndian(bytes[188..192]) <= |bytes| - 192
    ensures Parse(bytes).Some? ==> Parse(bytes).value == bytes[192..192 + BigEndian(bytes[188..192])]
  {
    if |bytes| >= 192 {
      assert Get(bytes[..HEADER_SIZE], ContentSize) == bytes[188..192];
      From32Is(bytes[188..192]);
    }
  }

  /** A raw message; `message` is replaced only when parsing succeeds. */
  class RawMessage {
    var message: seq<byte>

    constructor (data: seq<byte>)
      ensures message == data
    {
      message := data;
    }

    method ParseFromHC(data: array<byte>, size: int32) returns (ok: bool)
      requires size <= data.Length
      modifies this
      ensures ok <==> size >= 0 && Parse(data[..size]).Some?
      ensures message == if ok then Parse(data[..size]).value else old(message)
    {
      if size < HEADER_SIZE {
        return false;
      }
      var header := data[..HEADER_SIZE];
      assert data[..size][..HEADER_SIZE] == header;
      var n := From32(header[Offset(ContentSize)..Offset(ContentSize) + Size(ContentSize)]);
      if size - HEADER_SIZE < n {
        return false;
      }
      ok := ParseFromArray(data, HEADER_SIZE, n);
      assert data[..size][HEADER_SIZE..HEADER_SIZE + n] == data[HEADER_SIZE..HEADER_SIZE + n];
    }

    /** Takes n bytes from off on; an empty content is refused. */
    method ParseFromArray(data: array<byte>, off: nat, n: int) returns (ok: bool)
      requires off + n <= data.Length
      modifies this
      ensures ok == (n > 0)
      ensures message == if ok then data[off..off + n] else old(message)
    {
      if n <= 0 {
        return false;
      }
      message := data[off..off + n];
      ok := true;
    }
  }

  /** A framed message parses back, whatever follows it, if and only if it is not empty. */
  lemma FrameRoundTrip(typeName: seq<byte>, content: seq<byte>, rest: seq<byte>)
    requires |content| < 0x8000_0000
    ensures Parse(Frame(typeName, content) + rest) == if content == [] then None else Some(content)
  {
    var bytes := Frame(typeName, content) + rest;
    assert bytes[..HEADER_SIZE] == HeaderOf(typeName, |content|);
    HeaderFields(typeName, |content|);
    assert content == bytes[HEADER_SIZE..HEADER_SIZE + |content|];
  }

  /** No strict prefix of a framed message is accepted. */
  lemma PrefixRejected(typeName: seq<byte>, content: seq<byte>, k: nat)
    requires |content| < 0x8000_0000 && k < |Frame(typeName, content)|
    ensures Parse(Frame(typeName, content)[..k]) == None
  {
    var bytes := Frame(typeName, content)[..k];
    if k >= HEADER_SIZE {
      assert bytes[..HEADER_SIZE] == HeaderOf(typeName, |content|);
      HeaderFields(typeName, |content|);
    }
  }

  /** Serializing into a large enough buffer and parsing what was written restores the
      content and only that. */
  method SendAndReceive(typeName: seq<byte>, content: seq<byte>, data: array<byte>, size: int32, received: int32,
                        into: RawMessage) returns (sent: bool, ok: bool)
    requires Buffer(data.Length, size) && |content| < 0x1_0000_0000 && received <= size
    modifies data, into
    ensures sent == (|content| < 0x8000_0000 && HEADER_SIZE + |content| <= size)
    ensures sent ==> (ok <==> content != [] && received >= HEADER_SIZE + |content|)
    ensures sent && ok ==> into.message == content
    ensures !ok ==> into.message == old(into.message)
  {
    ok := false;
    sent := SerializeToHC(typeName, content, data, size);
    if sent {
      ghost var frame, all := Frame(typeName, content), data[..];
      if 0 <= received < |frame| {
        assert data[..received] == frame[..received];
        PrefixRejected(typeName, content, received);
      } else if |frame| <= received {
        assert data[..received] == frame + all[|frame|..received];
        FrameRoundTrip(typeName, content, all[|frame|..received]);
      }
      ok := into.ParseFromHC(data, received);
    }
  }
}
