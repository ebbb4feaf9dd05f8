/** The messages between provider and workers (include/sbe/hitsuji/Request.hpp, Reply.hpp,
    GroupSizeEncoding.hpp, Flags.hpp, MessageHeader.hpp): Simple Binary Encoding with a message
    header, a block of fixed fields, a repeating group and a name behind its length byte. */
module Sbe {
  import opened Wrappers

  type byte = b: int | 0 <= b < 256

  type Int16 = v: int | -0x8000 <= v < 0x8000

  type Int32 = v: int | -0x8000_0000 <= v < 0x8000_0000

  type UInt16 = v: int | 0 <= v < 0x1_0000

  type UInt64 = v: int | 0 <= v < 0x1_0000_0000_0000_0000

  datatype Request = Request(
    handle: UInt64, rwfVersion: UInt16, token: Int32, serviceId: UInt16, abort: bool, useAttribInfo: bool,
    fids: seq<Int16>, itemName: seq<byte>)

  datatype Reply = Reply(handle: UInt64, token: Int32, payload: seq<byte>)

  const HEADER_SIZE := 8
  const REQUEST_BLOCK := 17
  const REPLY_BLOCK := 12

  // ---- Little-endian numbers -------------------------------------------------------------

  function Bytes(v: nat, n: nat): (s: seq<byte>)
    ensures |s| == n
  {
    if n == 0 then [] else [v % 256] + Bytes(v / 256, n - 1)
  }

  function NumberOf(s: seq<byte>): nat {
    if s == [] then 0 else s[0] + 256 * NumberOf(s[1..])
  }

  function Pow256(n: nat): nat {
    if n == 0 then 1 else 256 * Pow256(n - 1)
  }

  lemma {:induction false} BytesOfNumber(v: nat, n: nat)
    requires v < Pow256(n)
    ensures NumberOf(Bytes(v, n)) == v
  {
    if n > 0 {
      BytesOfNumber(v / 256, n - 1);
      assert Bytes(v, n)[1..] == Bytes(v / 256, n - 1);
    }
  }

  /** The two's complement of a signed number of `n` bytes. */
  function Unsigned(v: int, half: nat): int {
    if v < 0 then v + 2 * half else v
  }

  function Signed(u: int, half: nat): int {
    if u >= half then u - 2 * half else u
  }

  // ---- The encodings ---------------------------------------------------------------------

  function Header(block: UInt16, template: UInt16): (s: seq<byte>)
    ensures |s| == HEADER_SIZE
  {
    Bytes(block, 2) + Bytes(template, 2) + Bytes(1, 2) + Bytes(0, 2)
  }

  function FlagBits(abort: bool, useAttribInfo: bool): byte {
    (if abort then 1 else 0) + (if useAttribInfo then 2 else 0)
  }

  function RequestFields(m: Request): (s: seq<byte>)
    ensures |s| == REQUEST_BLOCK
  {
    Bytes(m.handle, 8) + (Bytes(m.rwfVersion, 2) + (Bytes(Unsigned(m.token, 0x8000_0000), 4)
      + (Bytes(m.serviceId, 2) + [FlagBits(m.abort, m.useAttribInfo)])))
  }

  function FidBytes(fids: seq<Int16>): (s: seq<byte>)
    ensures |s| == 2 * |fids|
  {
    if fids == [] then [] else Bytes(Unsigned(fids[0], 0x8000), 2) + FidBytes(fids[1..])
  }

  /** The count has one byte only. */
  function Group(fids: seq<Int16>): (s: seq<byte>)
    ensures |s| == 3 + 2 * |fids|
  {
    Bytes(2, 2) + ([|fids| % 256] + FidBytes(fids))
  }

  /** So has the length. */
  function VarData(data: seq<byte>): (s: seq<byte>)
    ensures |s| == 1 + |data|
  {
    [|data| % 256] + data
  }

  function RequestBytes(m: Request): seq<byte> {
    Header(REQUEST_BLOCK, 1) + (RequestFields(m) + (Group(m.fids) + VarData(m.itemName)))
  }

  /** A request as the application writes it, without a group. */
  function TaskBytes(m: Request): seq<byte> {
    Header(REQUEST_BLOCK, 1) + (RequestFields(m) + VarData(m.itemName))
  }

  function ReplyFields(m: Reply): (s: seq<byte>)
    ensures |s| == REPLY_BLOCK
  {
    Bytes(m.handle, 8) + Bytes(Unsigned(m.token, 0x8000_0000), 4)
  }

  function ReplyBytes(m: Reply): seq<byte> {
    Header(REPLY_BLOCK, 2) + (ReplyFields(m) + VarData(m.payload))
  }

  // ---- Decoding --------------------------------------------------------------------------

  /** A number in the buffer; None is a read or a position outside it. */
  function Read(b: seq<byte>, at: nat, n: nat): (v: Option<nat>)
    ensures v.Some? <==> at + n <= |b|
  {
    if at + n <= |b| then Some(NumberOf(b[at..at + n])) else None
  }

  /** The entries of the group; the check wants one byte more behind each of them. */
  function ReadFids(b: seq<byte>, at: nat, block: nat, count: nat): Option<(seq<int>, nat)>
    decreases count
  {
    if count == 0 then Some(([], at))
    else if at + block >= |b| || Read(b, at, 2).None? then None
    else match ReadFids(b, at + block, block, count - 1)
      case None => None
      case Some(rest) => Some(([Signed(Read(b, at, 2).value, 0x8000)] + rest.0, rest.1))
  }

  function ReadVarData(b: seq<byte>, at: nat): Option<seq<byte>> {
    if at < |b| && at + 1 + b[at] <= |b| then Some(b[at + 1..at + 1 + b[at]]) else None
  }

  /** A decoded message, its numbers still unbounded. */
  datatype Decoded = Decoded(
    handle: nat, rwfVersion: nat, token: int, serviceId: nat, abort: bool, useAttribInfo: bool,
    fids: seq<int>, itemName: seq<byte>)

  function DecodeRequest(b: seq<byte>): Option<Decoded> {
    var f := HEADER_SIZE;
    if Read(b, 0, 2).None? || HEADER_SIZE > |b| || f + REQUEST_BLOCK > |b| || f + Read(b, 0, 2).value > |b| then None
    else
      var group := f + Read(b, 0, 2).value;
      if group + 3 > |b| then None
      else match ReadFids(b, group + 3, Read(b, group, 2).value, b[group + 2])
        case None => None
        case Some(r) =>
          match ReadVarData(b, r.1)
          case None => None
          case Some(name) =>
            var flags := b[f + 16];
            Some(Decoded(
              Read(b, f, 8).value, Read(b, f + 8, 2).value, Signed(Read(b, f + 10, 4).value, 0x8000_0000),
              Read(b, f + 14, 2).value, flags % 2 == 1, flags / 2 % 2 == 1, r.0, name))
  }

  /** A request as the worker reads it: the item name right behind the fixed fields. */
  function DecodeTask(b: seq<byte>): Option<Decoded> {
    var f := HEADER_SIZE;
    if Read(b, 0, 2).None? || HEADER_SIZE > |b| || f + REQUEST_BLOCK > |b| || f + Read(b, 0, 2).value > |b| then None
    else match ReadVarData(b, f + Read(b, 0, 2).value)
      case None => None
      case Some(name) =>
        var flags := b[f + 16];
        Some(Decoded(
          Read(b, f, 8).value, Read(b, f + 8, 2).value, Signed(Read(b, f + 10, 4).value, 0x8000_0000),
          Read(b, f + 14, 2).value, flags % 2 == 1, flags / 2 % 2 == 1, [], name))
  }

  function AsDecoded(m: Request): Decoded {
    Decoded(m.handle, m.rwfVersion, m.token, m.serviceId, m.abort, m.useAttribInfo, m.fids, m.itemName)
  }

  datatype DecodedReply = DecodedReply(handle: nat, token: int, payload: seq<byte>)

  function DecodeReply(b: seq<byte>): Option<DecodedReply> {
    var f := HEADER_SIZE;
    if Read(b, 0, 2).None? || HEADER_SIZE > |b| || f + REPLY_BLOCK > |b| || f + Read(b, 0, 2).value > |b| then None
    else match ReadVarData(b, f + Read(b, 0, 2).value)
      case None => None
      case Some(payload) =>
        Some(DecodedReply(Read(b, f, 8).value, Signed(Read(b, f + 8, 4).value, 0x8000_0000), payload))
  }

  // ---- Round trips -----------------------------------------------------------------------

  /** The bytes `s` stand in the buffer at a position. */
  ghost predicate Holds(b: seq<byte>, at: nat, s: seq<byte>) {
    at + |s| <= |b| && b[at..at + |s|] == s
  }

  lemma HoldsParts(b: seq<byte>, at: nat, s: seq<byte>, t: seq<byte>)
    requires Holds(b, at, s + t)
    ensures Holds(b, at, s) && Holds(b, at + |s|, t)
  {
    assert (s + t)[..|s|] == s && (s + t)[|s|..] == t;
    assert b[at..at + |s|] == b[at..at + |s + t|][..|s|];
    assert b[at + |s|..at + |s| + |t|] == b[at..at + |s + t|][|s|..];
  }

  lemma ReadsNumber(b: seq<byte>, at: nat, v: nat, n: nat)
    requires Holds(b, at, Bytes(v, n)) && v < Pow256(n)
    ensures Read(b, at, n) == Some(v)
  {
    BytesOfNumber(v, n);
  }

  lemma Powers()
    ensures Pow256(2) == 0x1_0000 && Pow256(4) == 0x1_0000_0000 && Pow256(8) == 0x1_0000_0000_0000_0000
  {
    assert Pow256(1) == 256;
    assert Pow256(3) == 0x100_0000;
    assert Pow256(5) == 0x100_0000_0000;
    assert Pow256(6) == 0x1_0000_0000_0000;
    assert Pow256(7) == 0x100_0000_0000_0000;
  }

  lemma {:induction false} ReadsFids(b: seq<byte>, at: nat, fids: seq<Int16>)
    requires Holds(b, at, FidBytes(fids)) && at + 2 * |fids| < |b|
    ensures ReadFids(b, at, 2, |fids|) == Some((fids, at + 2 * |fids|))
    decreases |fids|
  {
    if fids != [] {
      Powers();
      HoldsParts(b, at, Bytes(Unsigned(fids[0], 0x8000), 2), FidBytes(fids[1..]));
      ReadsNumber(b, at, Unsigned(fids[0], 0x8000), 2);
      ReadsFids(b, at + 2, fids[1..]);
      assert [fids[0]] + fids[1..] == fids;
    }
  }

  lemma ReadsVarData(b: seq<byte>, at: nat, data: seq<byte>)
    requires Holds(b, at, VarData(data)) && |data| <= 255
    ensures ReadVarData(b, at) == Some(data)
  {
    HoldsParts(b, at, [|data| % 256], data);
  }

  lemma FlagsSurvive(abort: bool, useAttribInfo: bool)
    ensures var bits := FlagBits(abort, useAttribInfo); (bits % 2 == 1) == abort && (bits / 2 % 2 == 1) == useAttribInfo
  {
  }

  /** The fixed fields behind the header, wherever they stand. */
  lemma ReadsRequestFields(b: seq<byte>, f: nat, m: Request)
    requires Holds(b, f, RequestFields(m))
    ensures Read(b, f, 8) == Some(m.handle) && Read(b, f + 8, 2) == Some(m.rwfVersion)
    ensures Read(b, f + 10, 4) == Some(Unsigned(m.token, 0x8000_0000)) && Read(b, f + 14, 2) == Some(m.serviceId)
    ensures b[f + 16] == FlagBits(m.abort, m.useAttribInfo)
  {
    Powers();
    hide Bytes, Pow256;
    var flags: seq<byte> := [FlagBits(m.abort, m.useAttribInfo)];
    var service := Bytes(m.serviceId, 2) + flags;
    var token := Bytes(Unsigned(m.token, 0x8000_0000), 4) + service;
    var version := Bytes(m.rwfVersion, 2) + token;
    HoldsParts(b, f, Bytes(m.handle, 8), version);
    HoldsParts(b, f + 8, Bytes(m.rwfVersion, 2), token);
    HoldsParts(b, f + 10, Bytes(Unsigned(m.token, 0x8000_0000), 4), service);
    HoldsParts(b, f + 14, Bytes(m.serviceId, 2), flags);
    hide Holds, Read;
    ReadsNumber(b, f, m.handle, 8);
    ReadsNumber(b, f + 8, m.rwfVersion, 2);
    ReadsNumber(b, f + 10, Unsigned(m.token, 0x8000_0000), 4);
    ReadsNumber(b, f + 14, m.serviceId, 2);
    HoldsOne(b, f + 16, FlagBits(m.abort, m.useAttribInfo));
  }

  lemma HoldsOne(b: seq<byte>, at: nat, x: byte)
    requires Holds(b, at, [x])
    ensures at < |b| && b[at] == x
  {
    assert b[at..at + 1][0] == x;
  }

  lemma WholeBuffer(b: seq<byte>)
    ensures Holds(b, 0, b)
  {
    assert b[0..|b|] == b;
  }

  lemma ReadsBlock(b: seq<byte>, block: UInt16, template: UInt16)
    requires Holds(b, 0, Header(block, template))
    ensures Read(b, 0, 2) == Some(block) && |b| >= HEADER_SIZE
  {
    Powers();
    hide Bytes, Pow256;
    var rest := Bytes(template, 2) + Bytes(1, 2) + Bytes(0, 2);
    assert Header(block, template) == Bytes(block, 2) + rest;
    HoldsParts(b, 0, Bytes(block, 2), rest);
    ReadsNumber(b, 0, block, 2);
  }

  lemma ReadsGroup(b: seq<byte>, at: nat, fids: seq<Int16>)
    requires Holds(b, at, Group(fids)) && at + |Group(fids)| < |b| && |fids| <= 255
    ensures Read(b, at, 2) == Some(2) && b[at + 2] == |fids|
    ensures ReadFids(b, at + 3, 2, |fids|) == Some((fids, at + |Group(fids)|))
  {
    Powers();
    hide Bytes, Pow256;
    var rest: seq<byte> := [|fids| % 256] + FidBytes(fids);
    HoldsParts(b, at, Bytes(2, 2), rest);
    HoldsParts(b, at + 2, [|fids| % 256], FidBytes(fids));
    hide Holds;
    ReadsNumber(b, at, 2, 2);
    HoldsOne(b, at + 2, |fids| % 256);
    ReadsFids(b, at + 3, fids);
  }

  lemma RequestParts(b: seq<byte>, m: Request)
    requires b == RequestBytes(m)
    ensures Holds(b, 0, Header(REQUEST_BLOCK, 1)) && Holds(b, 8, RequestFields(m))
    ensures Holds(b, 25, Group(m.fids)) && Holds(b, 25 + |Group(m.fids)|, VarData(m.itemName))
    ensures |b| == 25 + |Group(m.fids)| + |VarData(m.itemName)|
  {
    hide Header, RequestFields, Group, VarData;
    WholeBuffer(b);
    var rest := Group(m.fids) + VarData(m.itemName);
    HoldsParts(b, 0, Header(REQUEST_BLOCK, 1), RequestFields(m) + rest);
    HoldsParts(b, 8, RequestFields(m), rest);
    HoldsParts(b, 25, Group(m.fids), VarData(m.itemName));
  }

  lemma AssembledRequest(b: seq<byte>, m: Request)
    requires |b| >= 25 && Read(b, 0, 2) == Some(REQUEST_BLOCK)
    requires Read(b, 8, 8) == Some(m.handle) && Read(b, 16, 2) == Some(m.rwfVersion)
    requires Read(b, 18, 4) == Some(Unsigned(m.token, 0x8000_0000)) && Read(b, 22, 2) == Some(m.serviceId)
    requires b[24] == FlagBits(m.abort, m.useAttribInfo)
    requires |b| >= 28 && Read(b, 25, 2) == Some(2) && b[27] == |m.fids|
    requires ReadFids(b, 28, 2, |m.fids|) == Some((m.fids, 25 + |Group(m.fids)|))
    requires ReadVarData(b, 25 + |Group(m.fids)|) == Some(m.itemName)
    ensures DecodeRequest(b) == Some(AsDecoded(m))
  {
    FlagsSurvive(m.abort, m.useAttribInfo);
    hide Read, ReadFids, ReadVarData, Group, FlagBits;
  }

  lemma RequestDecodes(m: Request)
    requires |m.fids| <= 255 && |m.itemName| <= 255
    ensures DecodeRequest(RequestBytes(m)) == Some(AsDecoded(m))
  {
    hide RequestBytes, Header, RequestFields, Group, VarData, Holds, Read, ReadFids, ReadVarData, FlagBits, DecodeRequest;
    var b := RequestBytes(m);
    RequestParts(b, m);
    ReadsBlock(b, REQUEST_BLOCK, 1);
    ReadsRequestFields(b, 8, m);
    ReadsGroup(b, 25, m.fids);
    ReadsVarData(b, 25 + |Group(m.fids)|, m.itemName);
    AssembledRequest(b, m);
  }

  /** In a buffer of just the needed size, a request decodes to itself exactly when it has at
      most 255 field ids and an item name of at most 255 bytes. */
  lemma RequestRoundTrip(m: Request)
    ensures DecodeRequest(RequestBytes(m)) == Some(AsDecoded(m)) <==> |m.fids| <= 255 && |m.itemName| <= 255
  {
    hide DecodeRequest, RequestBytes;
    AtMost255(RequestBytes(m));
    if |m.fids| <= 255 && |m.itemName| <= 255 { RequestDecodes(m); }
  }

  /** Whatever the buffer, decoding never gives more than one byte can count. */
  lemma AtMost255(b: seq<byte>)
    ensures DecodeRequest(b).Some? ==> |DecodeRequest(b).value.fids| <= 255 && |DecodeRequest(b).value.itemName| <= 255
    ensures DecodeReply(b).Some? ==> |DecodeReply(b).value.payload| <= 255
  {
    hide Read;
    if DecodeRequest(b).Some? {
      var group := HEADER_SIZE + Read(b, 0, 2).value;
      FidsCount(b, group + 3, Read(b, group, 2).value, b[group + 2]);
      hide ReadFids;
    }
  }

  lemma {:induction false} FidsCount(b: seq<byte>, at: nat, block: nat, count: nat)
    ensures ReadFids(b, at, block, count).Some? ==> |ReadFids(b, at, block, count).value.0| == count
    decreases count
  {
    if count > 0 {
      FidsCount(b, at + block, block, count - 1);
    }
  }

  lemma AssembledTask(b: seq<byte>, m: Request, name: seq<byte>)
    requires |b| >= 25 && Read(b, 0, 2) == Some(REQUEST_BLOCK)
    requires Read(b, 8, 8) == Some(m.handle) && Read(b, 16, 2) == Some(m.rwfVersion)
    requires Read(b, 18, 4) == Some(Unsigned(m.token, 0x8000_0000)) && Read(b, 22, 2) == Some(m.serviceId)
    requires b[24] == FlagBits(m.abort, m.useAttribInfo) && ReadVarData(b, 25) == Some(name)
    ensures DecodeTask(b) == Some(AsDecoded(m).(fids := [], itemName := name))
  {
    FlagsSurvive(m.abort, m.useAttribInfo);
    hide Read, ReadVarData, FlagBits;
  }

  lemma TaskDecodes(m: Request)
    requires |m.itemName| <= 255
    ensures DecodeTask(TaskBytes(m)) == Some(AsDecoded(m).(fids := []))
  {
    var b := TaskBytes(m);
    WholeBuffer(b);
    hide Header, RequestFields, VarData, Holds, Read, ReadVarData, FlagBits, DecodeTask;
    HoldsParts(b, 0, Header(REQUEST_BLOCK, 1), RequestFields(m) + VarData(m.itemName));
    HoldsParts(b, 8, RequestFields(m), VarData(m.itemName));
    ReadsBlock(b, REQUEST_BLOCK, 1);
    ReadsRequestFields(b, 8, m);
    ReadsVarData(b, 25, m.itemName);
    HoldsFits(b, 8, RequestFields(m));
    AssembledTask(b, m, m.itemName);
  }

  lemma HoldsFits(b: seq<byte>, at: nat, s: seq<byte>)
    requires Holds(b, at, s)
    ensures at + |s| <= |b|
  {
  }

  /** The application's own requests, without a view, reach the worker unchanged exactly when
      the item name has at most 255 bytes. */
  lemma TaskRoundTrip(m: Request)
    ensures DecodeTask(TaskBytes(m)) == Some(AsDecoded(m).(fids := [])) <==> |m.itemName| <= 255
  {
    hide TaskBytes, AsDecoded;
    if |m.itemName| <= 255 {
      TaskDecodes(m);
    } else {
      NameAtMost255(TaskBytes(m));
      assert AsDecoded(m).itemName == m.itemName by { NameStays(m); }
    }
  }

  lemma NameAtMost255(b: seq<byte>)
    ensures DecodeTask(b).Some? ==> |DecodeTask(b).value.itemName| <= 255
  {
    hide Read;
  }

  lemma NameStays(m: Request)
    ensures AsDecoded(m).itemName == m.itemName
  {
  }

  /** A request with a view is not what the worker expects: it takes the group header for the
      item name. */
  lemma WorkerMisreadsView(m: Request)
    ensures DecodeTask(RequestBytes(m)) == Some(AsDecoded(m).(fids := [], itemName := [0, |m.fids| % 256]))
  {
    var b := RequestBytes(m);
    RequestParts(b, m);
    GroupAsName(b, 25, m.fids);
    hide Header, RequestFields, Group, VarData, Holds, Read, ReadVarData, FlagBits, DecodeTask, RequestBytes;
    ReadsBlock(b, REQUEST_BLOCK, 1);
    ReadsRequestFields(b, 8, m);
    HoldsFits(b, 8, RequestFields(m));
    AssembledTask(b, m, [0, |m.fids| % 256]);
  }

  lemma GroupAsName(b: seq<byte>, at: nat, fids: seq<Int16>)
    requires Holds(b, at, Group(fids))
    ensures ReadVarData(b, at) == Some([0, |fids| % 256])
  {
    var g := Group(fids);
    assert Bytes(2, 2) == [2, 0] by { assert Bytes(0, 1) == [0]; }
    assert b[at..at + |g|] == g;
    assert b[at] == g[0] && b[at + 1] == g[1] && b[at + 2] == g[2];
    assert b[at + 1..at + 3] == [0, |fids| % 256];
  }

  /** The same of a reply and its payload. */
  lemma ReplyRoundTrip(m: Reply)
    ensures DecodeReply(ReplyBytes(m)) == Some(DecodedReply(m.handle, m.token, m.payload)) <==> |m.payload| <= 255
  {
    var b := ReplyBytes(m);
    if |m.payload| <= 255 {
      ReplyParts(b, m);
      Powers();
      hide Header, ReplyFields, ReplyBytes, Read, ReadVarData, Holds, Bytes, Pow256;
      ReadsBlock(b, REPLY_BLOCK, 2);
      ReadsNumber(b, 8, m.handle, 8);
      ReadsNumber(b, 16, Unsigned(m.token, 0x8000_0000), 4);
      ReadsVarData(b, 20, m.payload);
    } else {
      AtMost255(b);
    }
  }

  lemma ReplyParts(b: seq<byte>, m: Reply)
    requires b == ReplyBytes(m)
    ensures Holds(b, 0, Header(REPLY_BLOCK, 2)) && Holds(b, 8, Bytes(m.handle, 8))
    ensures Holds(b, 16, Bytes(Unsigned(m.token, 0x8000_0000), 4)) && Holds(b, 20, VarData(m.payload))
    ensures |b| == 20 + |VarData(m.payload)|
  {
    hide Header, Bytes, VarData;
    WholeBuffer(b);
    HoldsParts(b, 0, Header(REPLY_BLOCK, 2), ReplyFields(m) + VarData(m.payload));
    HoldsParts(b, 8, ReplyFields(m), VarData(m.payload));
    HoldsParts(b, 8, Bytes(m.handle, 8), Bytes(Unsigned(m.token, 0x8000_0000), 4));
  }

  // ---- Where every byte is ---------------------------------------------------------------

  lemma DivDiv(v: nat, p: nat)
    requires p > 0
    ensures v / 256 / p == v / (256 * p)
  {
    var q, r := v / 256 / p, v / 256 % p;
    var low := v % 256;
    assert v == 256 * (p * q + r) + low;
    assert v == (256 * p) * q + (256 * r + low) && 256 * r + low < 256 * p;
    Quotient(v, 256 * p, q, 256 * r + low);
  }

  lemma Quotient(v: nat, d: nat, q: nat, r: nat)
    requires r < d && v == d * q + r
    ensures v / d == q
  {
    var e := v / d - q;
    assert e * d == r - v % d;
    assert e > 0 ==> e * d >= d;
    assert e < 0 ==> e * d <= 0 - d;
  }

  lemma {:induction false} PowPositive(n: nat)
    ensures Pow256(n) > 0
  {
    if n > 0 { PowPositive(n - 1); }
  }

  /** The lowest byte comes first. */
  lemma {:induction false} BytesAt(v: nat, n: nat, i: nat)
    requires i < n
    ensures Pow256(i) > 0 && Bytes(v, n)[i] == v / Pow256(i) % 256
  {
    PowPositive(i);
    if i > 0 {
      BytesAt(v / 256, n - 1, i - 1);
      PowPositive(i - 1);
      DivDiv(v, Pow256(i - 1));
    }
  }

  /** The `n` bytes from `at` on are the number, the lowest byte first. */
  ghost predicate NumberAt(b: seq<byte>, at: nat, n: nat, v: nat) {
    at + n <= |b| && forall i :: 0 <= i < n ==> Pow256(i) > 0 && b[at + i] == v / Pow256(i) % 256
  }

  lemma NumberHeld(b: seq<byte>, at: nat, v: nat, n: nat)
    requires Holds(b, at, Bytes(v, n))
    ensures NumberAt(b, at, n, v)
  {
    forall i | 0 <= i < n ensures Pow256(i) > 0 && b[at + i] == v / Pow256(i) % 256 {
      BytesAt(v, n, i);
      assert b[at..at + n][i] == b[at + i];
    }
  }

  lemma FieldsHeld(b: seq<byte>, f: nat, m: Request)
    requires Holds(b, f, RequestFields(m))
    ensures NumberAt(b, f, 8, m.handle) && NumberAt(b, f + 8, 2, m.rwfVersion)
    ensures NumberAt(b, f + 10, 4, m.token % 0x1_0000_0000) && NumberAt(b, f + 14, 2, m.serviceId)
    ensures b[f + 16] == (if m.abort then 1 else 0) + (if m.useAttribInfo then 2 else 0)
  {
    hide Bytes, Pow256, NumberAt;
    var flags: seq<byte> := [FlagBits(m.abort, m.useAttribInfo)];
    var service := Bytes(m.serviceId, 2) + flags;
    var token := Bytes(Unsigned(m.token, 0x8000_0000), 4) + service;
    var version := Bytes(m.rwfVersion, 2) + token;
    HoldsParts(b, f, Bytes(m.handle, 8), version);
    HoldsParts(b, f + 8, Bytes(m.rwfVersion, 2), token);
    HoldsParts(b, f + 10, Bytes(Unsigned(m.token, 0x8000_0000), 4), service);
    HoldsParts(b, f + 14, Bytes(m.serviceId, 2), flags);
    hide Holds;
    NumberHeld(b, f, m.handle, 8);
    NumberHeld(b, f + 8, m.rwfVersion, 2);
    NumberHeld(b, f + 10, Unsigned(m.token, 0x8000_0000), 4);
    NumberHeld(b, f + 14, m.serviceId, 2);
    HoldsOne(b, f + 16, FlagBits(m.abort, m.useAttribInfo));
  }

  lemma HeaderIs(block: UInt16, template: UInt16)
    requires block < 256 && template < 256
    ensures Header(block, template) == [block, 0, template, 0, 1, 0, 0, 0]
  {
    assert Bytes(0, 1) == [0] && Bytes(0, 2) == [0, 0];
    assert Bytes(block, 2) == [block, 0] && Bytes(template, 2) == [template, 0] && Bytes(1, 2) == [1, 0];
  }

  lemma HeaderHeld(b: seq<byte>, block: UInt16, template: UInt16)
    requires Holds(b, 0, Header(block, template)) && block < 256 && template < 256
    ensures |b| >= 8 && b[..8] == [block, 0, template, 0, 1, 0, 0, 0]
  {
    hide Header;
    HeaderIs(block, template);
    assert b[0..8] == b[..8];
  }

  lemma NameHeld(b: seq<byte>, at: nat, data: seq<byte>)
    requires Holds(b, at, VarData(data)) && at + 1 + |data| == |b|
    ensures b[at] == |data| % 256 && b[at + 1..] == data
  {
    HoldsParts(b, at, [|data| % 256], data);
    HoldsOne(b, at, |data| % 256);
    assert b[at + 1..at + 1 + |data|] == b[at + 1..];
  }

  lemma {:induction false} FidsHeld(b: seq<byte>, at: nat, fids: seq<Int16>, j: nat)
    requires Holds(b, at, FidBytes(fids)) && j < |fids|
    ensures NumberAt(b, at + 2 * j, 2, (fids[j] as int) % 0x1_0000)
    decreases |fids|
  {
    hide Bytes, NumberAt;
    HoldsParts(b, at, Bytes(Unsigned(fids[0], 0x8000), 2), FidBytes(fids[1..]));
    if j == 0 {
      NumberHeld(b, at, Unsigned(fids[0], 0x8000), 2);
    } else {
      FidsHeld(b, at + 2, fids[1..], j - 1);
    }
  }

  /** A request byte by byte: block length 17, template 1, schema 1, version 0; the fixed fields in
      order, each little-endian. */
  lemma RequestLayout(m: Request)
    ensures var b := RequestBytes(m);
            && |b| == 29 + 2 * |m.fids| + |m.itemName|
            && b[..8] == [17, 0, 1, 0, 1, 0, 0, 0]
            && NumberAt(b, 8, 8, m.handle) && NumberAt(b, 16, 2, m.rwfVersion)
            && NumberAt(b, 18, 4, m.token % 0x1_0000_0000) && NumberAt(b, 22, 2, m.serviceId)
            && b[24] == (if m.abort then 1 else 0) + (if m.useAttribInfo then 2 else 0)
  {
    var b := RequestBytes(m);
    RequestParts(b, m);
    RequestLength(m);
    hide *;
    HeaderHeld(b, 17, 1);
    FieldsHeld(b, 8, m);
  }

  /** Behind them: two bytes an entry and their count, the entries, the length of the name and the
      name. */
  lemma ViewLayout(m: Request, j: nat)
    ensures var b := RequestBytes(m); var n := 2 * |m.fids|;
            && |b| == 29 + n + |m.itemName|
            && b[25] == 2 && b[26] == 0 && b[27] == |m.fids| % 256
            && (j < |m.fids| ==> NumberAt(b, 28 + 2 * j, 2, (m.fids[j] as int) % 0x1_0000))
            && b[28 + n] == |m.itemName| % 256 && b[29 + n..] == m.itemName
  {
    var b := RequestBytes(m);
    RequestParts(b, m);
    RequestLength(m);
    hide *;
    GroupHeld(b, 25, m.fids);
    GroupCount(m.fids);
    if j < |m.fids| { FidsHeld(b, 28, m.fids, j); }
    NameHeld(b, 28 + 2 * |m.fids|, m.itemName);
  }

  lemma RequestLength(m: Request)
    ensures |RequestBytes(m)| == 29 + 2 * |m.fids| + |m.itemName| && |Group(m.fids)| == 3 + 2 * |m.fids|
  {
  }

  lemma GroupCount(fids: seq<Int16>)
    ensures Group(fids)[2] == |fids| % 256
  {
    hide Bytes, FidBytes;
  }

  lemma GroupStart(fids: seq<Int16>)
    ensures Group(fids)[0] == 2 && Group(fids)[1] == 0 && Group(fids)[3..] == FidBytes(fids)
  {
    assert Bytes(2, 2) == [2, 0] by { assert Bytes(0, 1) == [0]; }
    hide Bytes, FidBytes;
  }

  lemma GroupHeld(b: seq<byte>, at: nat, fids: seq<Int16>)
    requires Holds(b, at, Group(fids))
    ensures b[at] == 2 && b[at + 1] == 0 && b[at + 2] == Group(fids)[2] && Holds(b, at + 3, FidBytes(fids))
  {
    hide Group, FidBytes, Bytes;
    GroupStart(fids);
    var g := Group(fids);
    assert b[at..at + |g|] == g;
    assert b[at] == g[0] && b[at + 1] == g[1] && b[at + 2] == g[2];
    assert b[at + 3..at + |g|] == b[at..at + |g|][3..];
  }

  /** The application's request is the same without the group. */
  lemma TaskLayout(m: Request)
    ensures var b := TaskBytes(m);
            && |b| == 26 + |m.itemName|
            && b[..8] == [17, 0, 1, 0, 1, 0, 0, 0]
            && NumberAt(b, 8, 8, m.handle) && NumberAt(b, 16, 2, m.rwfVersion)
            && NumberAt(b, 18, 4, m.token % 0x1_0000_0000) && NumberAt(b, 22, 2, m.serviceId)
            && b[24] == (if m.abort then 1 else 0) + (if m.useAttribInfo then 2 else 0)
            && b[25] == |m.itemName| % 256 && b[26..] == m.itemName
  {
    var b := TaskBytes(m);
    TaskParts(m);
    hide *;
    HeaderHeld(b, 17, 1);
    FieldsHeld(b, 8, m);
    NameHeld(b, 25, m.itemName);
  }

  lemma TaskParts(m: Request)
    ensures var b := TaskBytes(m);
            && Holds(b, 0, Header(17, 1)) && Holds(b, 8, RequestFields(m)) && Holds(b, 25, VarData(m.itemName))
            && |b| == 26 + |m.itemName|
  {
    hide Header, RequestFields, VarData, Holds;
    var b := TaskBytes(m);
    WholeBuffer(b);
    HoldsParts(b, 0, Header(17, 1), RequestFields(m) + VarData(m.itemName));
    HoldsParts(b, 8, RequestFields(m), VarData(m.itemName));
  }

  /** A reply: block length 12, template 2, handle, token, and the payload behind its length. */
  lemma ReplyLayout(m: Reply)
    ensures var b := ReplyBytes(m);
            && |b| == 21 + |m.payload|
            && b[..8] == [12, 0, 2, 0, 1, 0, 0, 0]
            && NumberAt(b, 8, 8, m.handle) && NumberAt(b, 16, 4, m.token % 0x1_0000_0000)
            && b[20] == |m.payload| % 256 && b[21..] == m.payload
  {
    var b := ReplyBytes(m);
    ReplyParts(b, m);
    ReplyLength(m);
    hide *;
    HeaderHeld(b, 12, 2);
    ReplyFieldsHeld(b, m);
    NameHeld(b, 20, m.payload);
  }

  lemma ReplyLength(m: Reply)
    ensures |ReplyBytes(m)| == 21 + |m.payload|
  {
  }

  lemma ReplyFieldsHeld(b: seq<byte>, m: Reply)
    requires Holds(b, 8, Bytes(m.handle, 8)) && Holds(b, 16, Bytes(Unsigned(m.token, 0x8000_0000), 4))
    ensures NumberAt(b, 8, 8, m.handle) && NumberAt(b, 16, 4, m.token % 0x1_0000_0000)
  {
    hide Holds, NumberAt, Bytes;
    NumberHeld(b, 8, m.handle, 8);
    NumberHeld(b, 16, Unsigned(m.token, 0x8000_0000), 4);
  }

  // ---- The codec over a buffer -----------------------------------------------------------

  /** A message laid over a buffer. `position` moves along behind the fixed fields; a method
      returns false where the program throws because the buffer is too short. */
  class Codec {
    const buffer: array<byte>
    var offset: nat
    var position: nat

    constructor (b: array<byte>)
      ensures buffer == b && offset == 0 && position == 0
    {
      buffer, offset, position := b, 0, 0;
    }

    method Store(at: nat, t: seq<byte>)
      requires at + |t| <= buffer.Length
      modifies buffer
      ensures forall j :: 0 <= j < buffer.Length && !(at <= j < at + |t|) ==> buffer[j] == old(buffer[j])
      ensures buffer[at..at + |t|] == t
    {
      for i := 0 to |t|
        invariant forall j :: 0 <= j < buffer.Length && !(at <= j < at + i) ==> buffer[j] == old(buffer[j])
        invariant forall j :: 0 <= j < i ==> buffer[at + j] == t[j]
      {
        buffer[at + i] := t[i];
      }
    }

    /** Stores right behind what is already there. */
    method Append(at: nat, t: seq<byte>, ghost done: seq<byte>)
      requires at == |done| && at + |t| <= buffer.Length && buffer[..at] == done
      modifies buffer
      ensures buffer[..at + |t|] == done + t
    {
      Store(at, t);
      assert buffer[..at + |t|] == buffer[..at] + buffer[at..at + |t|];
      assert buffer[..at] == old(buffer[..at]);
    }

    method SetPosition(p: nat) returns (ok: bool)
      modifies `position
      ensures ok == (p <= buffer.Length)
      ensures position == if ok then p else old(position)
    {
      ok := p <= buffer.Length;
      if ok {
        position := p;
      }
    }

    method WrapForEncode(at: nat, block: nat) returns (ok: bool)
      modifies `offset, `position
      ensures ok == (at + block <= buffer.Length) && offset == at && (ok ==> position == at + block)
    {
      offset := at;
      ok := SetPosition(at + block);
    }

    /** The group header: first the count, then the length of an entry in front of it. */
    method ViewCount(count: nat, ghost done: seq<byte>) returns (ok: bool)
      requires position == |done| <= buffer.Length && buffer[..position] == done
      modifies buffer, `position
      ensures ok == (old(position) + 3 <= buffer.Length)
      ensures ok ==> position == old(position) + 3 && buffer[..position] == done + (Bytes(2, 2) + [count % 256])
    {
      if position + 3 > buffer.Length {
        return false;
      }
      Store(position + 2, [count % 256]);
      assert buffer[position + 2] == buffer[position + 2..position + 2 + 1][0];
      Store(position, Bytes(2, 2));
      assert buffer[..position + 3] == buffer[..position] + buffer[position..position + 2] + [buffer[position + 2]];
      assert buffer[..position] == old(buffer[..position]);
      position := position + 3;
      return true;
    }

    /** The next entry; the check wants one byte more behind it. */
    method NextFid(fid: Int16, ghost done: seq<byte>) returns (ok: bool)
      requires position == |done| <= buffer.Length && buffer[..position] == done
      modifies buffer, `position
      ensures ok == (old(position) + 2 < buffer.Length)
      ensures ok ==> position == old(position) + 2 && buffer[..position] == done + Bytes(Unsigned(fid, 0x8000), 2)
    {
      if position + 2 >= buffer.Length {
        return false;
      }
      Append(position, Bytes(Unsigned(fid, 0x8000), 2), done);
      position := position + 2;
      return true;
    }

    method PutVarData(data: seq<byte>, ghost done: seq<byte>) returns (ok: bool)
      requires position == |done| < buffer.Length && buffer[..position] == done
      modifies buffer, `position
      ensures ok == (old(position) + 1 + |data| <= buffer.Length)
      ensures ok ==> position == old(position) + 1 + |data| && buffer[..position] == done + VarData(data)
    {
      Append(position, [|data| % 256], done);
      ok := SetPosition(position + 1);
      var at := position;
      ok := SetPosition(position + |data|);
      if !ok {
        return false;
      }
      Append(at, data, done + [|data| % 256]);
      assert done + [|data| % 256] + data == done + ([|data| % 256] + data);
    }
  }

  /** The header, field by field. */
  method EncodeHeader(c: Codec, block: UInt16, template: UInt16)
    requires c.buffer.Length >= HEADER_SIZE
    modifies c.buffer
    ensures c.buffer[..HEADER_SIZE] == Header(block, template)
  {
    hide Bytes;
    c.Append(0, Bytes(block, 2), []);
    c.Append(2, Bytes(template, 2), [] + Bytes(block, 2));
    c.Append(4, Bytes(1, 2), [] + Bytes(block, 2) + Bytes(template, 2));
    c.Append(6, Bytes(0, 2), [] + Bytes(block, 2) + Bytes(template, 2) + Bytes(1, 2));
    assert [] + Bytes(block, 2) == Bytes(block, 2);
  }

  method EncodeFields(c: Codec, m: Request, ghost done: seq<byte>)
    requires c.offset == |done| && c.offset + REQUEST_BLOCK <= c.buffer.Length && c.buffer[..c.offset] == done
    modifies c.buffer
    ensures c.buffer[..c.offset + REQUEST_BLOCK] == done + RequestFields(m)
  {
    hide Bytes;
    var handle, version := Bytes(m.handle, 8), Bytes(m.rwfVersion, 2);
    var token, service := Bytes(Unsigned(m.token, 0x8000_0000), 4), Bytes(m.serviceId, 2);
    var flags: seq<byte> := [FlagBits(m.abort, m.useAttribInfo)];
    c.Append(c.offset, handle, done);
    c.Append(c.offset + 8, version, done + handle);
    c.Append(c.offset + 10, token, done + handle + version);
    c.Append(c.offset + 14, service, done + handle + version + token);
    c.Append(c.offset + 16, flags, done + handle + version + token + service);
    Regroup5(done, handle, version, token, service, flags);
  }

  lemma Regroup5(done: seq<byte>, a: seq<byte>, b: seq<byte>, c: seq<byte>, d: seq<byte>, e: seq<byte>)
    ensures done + a + b + c + d + e == done + (a + (b + (c + (d + e))))
  {
  }

  /** A request with its group, into a buffer of any size that holds the header: it succeeds
      exactly when the buffer is large enough, and nothing throws then. */
  method EncodeRequest(m: Request, buffer: array<byte>) returns (ok: bool)
    requires buffer.Length >= HEADER_SIZE
    modifies buffer
    ensures ok <==> |RequestBytes(m)| <= buffer.Length
    ensures ok ==> buffer[..|RequestBytes(m)|] == RequestBytes(m)
  {
    hide Header, RequestFields, FidBytes, Bytes;
    var c := new Codec(buffer);
    EncodeHeader(c, REQUEST_BLOCK, 1);
    ok := c.WrapForEncode(HEADER_SIZE, REQUEST_BLOCK);
    if !ok {
      return false;
    }
    ghost var done := Header(REQUEST_BLOCK, 1);
    EncodeFields(c, m, done);
    done := done + RequestFields(m);
    ok := c.ViewCount(|m.fids|, done);
    if !ok {
      return false;
    }
    done := done + (Bytes(2, 2) + [|m.fids| % 256]);
    ok := EncodeFids(c, m.fids, done);
    if !ok || c.position == buffer.Length {
      return false;
    }
    done := done + FidBytes(m.fids);
    ok := c.PutVarData(m.itemName, done);
    Regroup4(Header(REQUEST_BLOCK, 1), RequestFields(m), Bytes(2, 2), [|m.fids| % 256], FidBytes(m.fids), VarData(m.itemName));
  }

  /** The size the application allocates for either form. */
  function TaskSize(m: Request): nat {
    HEADER_SIZE + REQUEST_BLOCK + 1 + |m.itemName|
  }

  /** The application's request without a view, in the buffer it allocates: nothing throws. */
  method EncodeTask(m: Request, buffer: array<byte>) returns (ok: bool)
    requires buffer.Length == TaskSize(m)
    modifies buffer
    ensures ok && buffer[..] == TaskBytes(m)
  {
    hide Header, RequestFields;
    var c := new Codec(buffer);
    EncodeHeader(c, REQUEST_BLOCK, 1);
    ok := c.WrapForEncode(HEADER_SIZE, REQUEST_BLOCK);
    ghost var done := Header(REQUEST_BLOCK, 1);
    EncodeFields(c, m, done);
    ok := c.PutVarData(m.itemName, done + RequestFields(m));
    assert buffer[..buffer.Length] == buffer[..];
    assert done + RequestFields(m) + VarData(m.itemName) == done + (RequestFields(m) + VarData(m.itemName));
  }

  /** And with a view, in a buffer of the same size: it never fits, whatever the view. */
  method EncodeViewInTaskBuffer(m: Request, buffer: array<byte>) returns (ok: bool)
    requires buffer.Length == TaskSize(m)
    modifies buffer
    ensures !ok
  {
    ok := EncodeRequest(m, buffer);
  }

  lemma Regroup4(h: seq<byte>, f: seq<byte>, a: seq<byte>, b: seq<byte>, c: seq<byte>, d: seq<byte>)
    ensures h + f + (a + b) + c + d == h + (f + ((a + (b + c)) + d))
  {
  }

  method EncodeFids(c: Codec, fids: seq<Int16>, ghost done: seq<byte>) returns (ok: bool)
    requires c.position == |done| <= c.buffer.Length && c.buffer[..c.position] == done
    modifies c.buffer, c`position
    ensures ok <==> fids == [] || old(c.position) + 2 * |fids| < c.buffer.Length
    ensures ok ==> c.position == old(c.position) + 2 * |fids| && c.buffer[..c.position] == done + FidBytes(fids)
  {
    hide Bytes;
    assert fids[..0] == [] && done + FidBytes([]) == done;
    for i := 0 to |fids|
      invariant c.position == |done| + 2 * i <= c.buffer.Length && (i > 0 ==> c.position < c.buffer.Length)
      invariant c.buffer[..c.position] == done + FidBytes(fids[..i])
    {
      FidsSnoc(fids, i);
      ok := c.NextFid(fids[i], done + FidBytes(fids[..i]));
      if !ok {
        return false;
      }
    }
    assert fids[..|fids|] == fids;
    return true;
  }

  lemma {:induction false} FidsSnoc(fids: seq<Int16>, i: nat)
    requires i < |fids|
    ensures FidBytes(fids[..i + 1]) == FidBytes(fids[..i]) + Bytes(Unsigned(fids[i], 0x8000), 2)
  {
    hide Bytes;
    if i > 0 {
      FidsSnoc(fids[1..], i - 1);
      assert fids[..i + 1][1..] == fids[1..][..i] && fids[..i][1..] == fids[1..][..i - 1];
    } else {
      assert fids[..1][1..] == [];
    }
  }

  /** The reply that a worker sends, into a buffer of the needed size. */
  method EncodeReply(m: Reply, buffer: array<byte>) returns (ok: bool)
    requires buffer.Length == |ReplyBytes(m)|
    modifies buffer
    ensures ok && buffer[..] == ReplyBytes(m)
  {
    hide Header, Bytes;
    var c := new Codec(buffer);
    EncodeHeader(c, REPLY_BLOCK, 2);
    ok := c.WrapForEncode(HEADER_SIZE, REPLY_BLOCK);
    ghost var done := Header(REPLY_BLOCK, 2);
    var handle, token := Bytes(m.handle, 8), Bytes(Unsigned(m.token, 0x8000_0000), 4);
    c.Append(HEADER_SIZE, handle, done);
    c.Append(HEADER_SIZE + 8, token, done + handle);
    done := done + handle + token;
    ok := c.PutVarData(m.payload, done);
    assert buffer[..buffer.Length] == buffer[..];
    assert Header(REPLY_BLOCK, 2) + handle + token + VarData(m.payload)
        == Header(REPLY_BLOCK, 2) + (handle + token + VarData(m.payload));
  }

  lemma HoldsHeader(m: Request)
    ensures |RequestBytes(m)| >= HEADER_SIZE
  {
  }

  /** A request, encoded in place and decoded again. */
  method RequestThroughBuffer(m: Request) returns (decoded: Option<Decoded>)
    ensures decoded == Some(AsDecoded(m)) <==> |m.fids| <= 255 && |m.itemName| <= 255
  {
    hide *;
    HoldsHeader(m);
    var buffer := new byte[|RequestBytes(m)|];
    var ok := EncodeRequest(m, buffer);
    assert buffer[..|RequestBytes(m)|] == buffer[..];
    decoded := DecodeRequest(buffer[..]);
    RequestRoundTrip(m);
  }
}
