/** decode_mndp_packet of core/network_probe.py: a four-byte header followed by
    type-length-value records, against an encoder written for the specification. */
module Mndp {

  import opened Basics
  import opened Decimal

  type Byte = b: int | 0 <= b < 256
  type Bytes = seq<Byte>

  const MAC := 1
  const IDENTITY := 5
  const VERSION := 7
  const PLATFORM := 8
  const UPTIME := 10
  const SOFTWARE_ID := 11
  const BOARD := 12
  const INTERFACE_NAME := 16
  const IPV4 := 17

  /** `Decoded` stands for the UTF-8 text of the bytes, undecodable ones replaced. */
  datatype Value = Decoded(bytes: Bytes) | Shown(text: string)

  type Parts = map<string, Value>

  datatype Tlv = Tlv(kind: nat, payload: Bytes)

  predicate WellFormed(t: Tlv) { t.kind < 0x1_0000 && |t.payload| < 0x1_0000 }

  // ---- the wire format ---------------------------------------------------

  function Word(hi: Byte, lo: Byte): nat { hi * 256 + lo }

  function Encode16(n: nat): Bytes
    requires n < 0x1_0000
  {
    [n / 256, n % 256]
  }

  function EncodeTlv(t: Tlv): Bytes
    requires WellFormed(t)
  {
    Encode16(t.kind) + Encode16(|t.payload|) + t.payload
  }

  /** Type and length stand most significant byte first. */
  lemma WireFormat(t: Tlv)
    requires WellFormed(t)
    ensures EncodeTlv(t) == [t.kind / 256, t.kind % 256, |t.payload| / 256, |t.payload| % 256] + t.payload
  {
  }

  function EncodeAll(ts: seq<Tlv>): Bytes
    requires forall i :: 0 <= i < |ts| ==> WellFormed(ts[i])
  {
    if ts == [] then [] else EncodeTlv(ts[0]) + EncodeAll(ts[1..])
  }

  /** Less than a record header, or a record that claims more than there is. */
  predicate Incomplete(b: Bytes) { |b| < 4 || Word(b[2], b[3]) > |b| - 4 }

  function Head(b: Bytes): (t: Tlv)
    requires !Incomplete(b)
    ensures WellFormed(t)
  {
    Tlv(Word(b[0], b[1]), b[4..4 + Word(b[2], b[3])])
  }

  function Rest(b: Bytes): (r: Bytes)
    requires !Incomplete(b)
    ensures |r| < |b|
  {
    b[4 + Word(b[2], b[3])..]
  }

  function Records(b: Bytes): (ts: seq<Tlv>)
    ensures forall i :: 0 <= i < |ts| ==> WellFormed(ts[i])
    decreases |b|
  {
    if Incomplete(b) then [] else [Head(b)] + Records(Rest(b))
  }

  function Tail(b: Bytes): Bytes
    decreases |b|
  {
    if Incomplete(b) then b else Tail(Rest(b))
  }

  lemma HeadSplits(b: Bytes)
    requires !Incomplete(b)
    ensures b == EncodeTlv(Head(b)) + Rest(b)
  {
  }

  lemma EncodedHead(t: Tlv, rest: Bytes)
    requires WellFormed(t)
    ensures var b := EncodeTlv(t) + rest; !Incomplete(b) && Head(b) == t && Rest(b) == rest
  {
    var b := EncodeTlv(t) + rest;
    assert b[4..4 + |t.payload|] == t.payload;
    assert b[4 + |t.payload|..] == rest;
  }

  /** Every body is its records, encoded, followed by one incomplete record. */
  lemma {:induction false} BodySplits(b: Bytes)
    ensures b == EncodeAll(Records(b)) + Tail(b) && Incomplete(Tail(b))
    decreases |b|
  {
    if !Incomplete(b) {
      HeadSplits(b);
      BodySplits(Rest(b));
      assert Records(b)[1..] == Records(Rest(b));
    }
  }

  /** Decoding inverts encoding, whatever incomplete record trails. */
  lemma {:induction false} RecordsOfEncoded(ts: seq<Tlv>, tail: Bytes)
    requires forall i :: 0 <= i < |ts| ==> WellFormed(ts[i])
    requires Incomplete(tail)
    ensures Records(EncodeAll(ts) + tail) == ts && Tail(EncodeAll(ts) + tail) == tail
  {
    if ts == [] {
      assert EncodeAll(ts) + tail == tail;
    } else {
      var more := EncodeAll(ts[1..]) + tail;
      assert EncodeAll(ts) + tail == EncodeTlv(ts[0]) + more;
      EncodedHead(ts[0], more);
      RecordsOfEncoded(ts[1..], tail);
    }
  }

  // ---- what a record says ------------------------------------------------

  function Hex(d: nat): char
    requires d < 16
  {
    if d < 10 then ('0' as int + d) as char else ('a' as int + d - 10) as char
  }

  /** `":".join(f"{x:02x}" for x in payload)`. */
  function MacText(p: Bytes): string {
    if p == [] then ""
    else if |p| == 1 then [Hex(p[0] / 16), Hex(p[0] % 16)]
    else [Hex(p[0] / 16), Hex(p[0] % 16), ':'] + MacText(p[1..])
  }

  function Dotted(b: Byte, rest: string): string { Print(b) + ['.'] + rest }

  function Ipv4Text(p: Bytes): string
    requires |p| == 4
  {
    Dotted(p[0], Dotted(p[1], Dotted(p[2], Print(p[3]))))
  }

  /** `struct.unpack("<I", ...)`. */
  function Seconds(p: Bytes): nat
    requires |p| >= 4
  {
    Word(p[1], p[0]) + 0x1_0000 * Word(p[3], p[2])
  }

  datatype Uptime = Uptime(days: nat, hours: nat, minutes: nat)

  function UptimeOf(seconds: nat): Uptime {
    var remainder := seconds % 86400;
    Uptime(seconds / 86400, remainder / 3600, remainder % 3600 / 60)
  }

  function UptimeText(u: Uptime): string {
    Print(u.days) + "d " + Print(u.hours) + "h " + Print(u.minutes) + "m"
  }

  /** The printed days, hours and minutes are the uptime rounded down to a minute. */
  lemma UptimeIsRoundedDown(seconds: nat)
    ensures var u := UptimeOf(seconds);
            && u.hours < 24 && u.minutes < 60
            && var shown := 86400 * u.days + 3600 * u.hours + 60 * u.minutes;
               shown <= seconds < shown + 60
  {
  }

  function TextName(kind: nat): string {
    if kind == IDENTITY then "identity"
    else if kind == VERSION then "version"
    else if kind == PLATFORM then "platform"
    else if kind == SOFTWARE_ID then "software_id"
    else if kind == BOARD then "board"
    else if kind == INTERFACE_NAME then "interface_name"
    else ""
  }

  /** The attribute that a record sets, and its value. */
  function Update(t: Tlv): Option<(string, Value)> {
    if t.kind == MAC then Some(("mac", Shown(MacText(t.payload))))
    else if TextName(t.kind) != "" then Some((TextName(t.kind), Decoded(t.payload)))
    else if t.kind == UPTIME && |t.payload| >= 4 then Some(("uptime", Shown(UptimeText(UptimeOf(Seconds(t.payload))))))
    else if t.kind == IPV4 && |t.payload| == 4 then Some(("ipv4", Shown(Ipv4Text(t.payload))))
    else None
  }

  function Apply(parts: Parts, t: Tlv): Parts {
    match Update(t)
    case Some((name, value)) => parts[name := value]
    case None => parts
  }

  function ApplyAll(parts: Parts, ts: seq<Tlv>): Parts
    decreases ts
  {
    if ts == [] then parts else ApplyAll(Apply(parts, ts[0]), ts[1..])
  }

  /** The last record that sets the attribute decides it. */
  function LastUpdate(ts: seq<Tlv>, name: string): Option<Value> {
    if ts == [] then None
    else
      match LastUpdate(ts[1..], name)
      case Some(v) => Some(v)
      case None =>
        match Update(ts[0])
        case Some((n, v)) => if n == name then Some(v) else None
        case None => None
  }

  lemma {:induction false} LastUpdateWins(parts: Parts, ts: seq<Tlv>, name: string)
    ensures Lookup(ApplyAll(parts, ts), name) ==
              if LastUpdate(ts, name).Some? then LastUpdate(ts, name) else Lookup(parts, name)
    decreases ts
  {
    if ts != [] {
      LastUpdateWins(Apply(parts, ts[0]), ts[1..], name);
    }
  }

  lemma HexPairDetermines(a: Byte, b: Byte)
    requires Hex(a / 16) == Hex(b / 16) && Hex(a % 16) == Hex(b % 16)
    ensures a == b
  {
    assert a == 16 * (a / 16) + a % 16;
    assert b == 16 * (b / 16) + b % 16;
  }

  lemma {:induction false} MacTextLength(p: Bytes)
    ensures |MacText(p)| == if p == [] then 0 else 3 * |p| - 1
  {
    if |p| > 1 {
      MacTextLength(p[1..]);
    }
  }

  /** Different addresses are shown differently. */
  lemma {:induction false} MacTextIsInjective(p: Bytes, q: Bytes)
    requires MacText(p) == MacText(q)
    ensures p == q
  {
    MacTextLength(p);
    MacTextLength(q);
    if p != [] {
      var s := MacText(p);
      assert s[0] == Hex(p[0] / 16) == Hex(q[0] / 16);
      assert s[1] == Hex(p[0] % 16) == Hex(q[0] % 16);
      HexPairDetermines(p[0], q[0]);
      if |p| > 1 {
        assert s[3..] == MacText(p[1..]) == MacText(q[1..]);
        MacTextIsInjective(p[1..], q[1..]);
        assert p == [p[0]] + p[1..] && q == [q[0]] + q[1..];
      }
    }
  }

  lemma DottedIsInjective(a: Byte, x: string, b: Byte, y: string)
    requires Dotted(a, x) == Dotted(b, y)
    ensures a == b && x == y
  {
    CutIsUnique(Print(a), x, Print(b), y, '.');
    PrintThenValue(a);
    PrintThenValue(b);
  }

  lemma Ipv4TextIsInjective(p: Bytes, q: Bytes)
    requires |p| == |q| == 4 && Ipv4Text(p) == Ipv4Text(q)
    ensures p == q
  {
    var (c, d) := (Dotted(p[2], Print(p[3])), Dotted(q[2], Print(q[3])));
    DottedIsInjective(p[0], Dotted(p[1], c), q[0], Dotted(q[1], d));
    DottedIsInjective(p[1], c, q[1], d);
    DottedIsInjective(p[2], Print(p[3]), q[2], Print(q[3]));
    PrintThenValue(p[3]);
    PrintThenValue(q[3]);
  }

  // ---- the decoder ---------------------------------------------------------

  /** decode_mndp_packet. */
  method DecodeMndpPacket(data: Bytes) returns (parts: Parts)
    ensures |data| < 4 ==> parts == map[]
    ensures |data| >= 4 ==> parts == ApplyAll(map[], Records(data[4..]))
  {
    parts := map[];
    if |data| < 4 {
      return;
    }
    var reader := data[4..];
    while |reader| >= 4
      invariant ApplyAll(parts, Records(reader)) == ApplyAll(map[], Records(data[4..]))
      decreases |reader|
    {
      var kind := Word(reader[0], reader[1]);
      var length := Word(reader[2], reader[3]);
      if length > |reader| - 4 {
        break;
      }
      ghost var before := Records(reader);
      assert before[0] == Head(reader) && before[1..] == Records(Rest(reader));
      var payload := reader[4..4 + length];
      reader := reader[4 + length..];
      if kind == MAC {
        parts := parts["mac" := Shown(MacText(payload))];
      } else if TextName(kind) != "" {
        parts := parts[TextName(kind) := Decoded(payload)];
      } else if kind == UPTIME && |payload| >= 4 {
        var seconds := Seconds(payload);
        var days := seconds / 86400;
        var remainder := seconds % 86400;
        var hours := remainder / 3600;
        remainder := remainder % 3600;
        var minutes := remainder / 60;
        parts := parts["uptime" := Shown(Print(days) + "d " + Print(hours) + "h " + Print(minutes) + "m")];
      } else if kind == IPV4 {
        if |payload| == 4 {
          parts := parts["ipv4" := Shown(Ipv4Text(payload))];
        }
      }
    }
  }

  /** A header, any records and any incomplete record decode to what the records say:
      each attribute has the value its last record gave it, or is absent. */
  lemma DecodeInvertsEncode(header: Bytes, ts: seq<Tlv>, tail: Bytes, name: string)
    requires |header| == 4 && Incomplete(tail)
    requires forall i :: 0 <= i < |ts| ==> WellFormed(ts[i])
    ensures var data := header + EncodeAll(ts) + tail;
            && |data| >= 4 && Records(data[4..]) == ts
            && Lookup(ApplyAll(map[], Records(data[4..])), name) == LastUpdate(ts, name)
  {
    var data := header + EncodeAll(ts) + tail;
    assert data[4..] == EncodeAll(ts) + tail;
    RecordsOfEncoded(ts, tail);
    LastUpdateWins(map[], ts, name);
  }

  // ---- the attributes, by type number ----------------------------------------

  /** Type by type: which attribute a record sets, and to what. */
  lemma AttributeOf(t: Tlv)
    ensures t.kind == 1 ==> Update(t) == Some(("mac", Shown(MacText(t.payload))))
    ensures t.kind == 5 ==> Update(t) == Some(("identity", Decoded(t.payload)))
    ensures t.kind == 7 ==> Update(t) == Some(("version", Decoded(t.payload)))
    ensures t.kind == 8 ==> Update(t) == Some(("platform", Decoded(t.payload)))
    ensures t.kind == 11 ==> Update(t) == Some(("software_id", Decoded(t.payload)))
    ensures t.kind == 12 ==> Update(t) == Some(("board", Decoded(t.payload)))
    ensures t.kind == 16 ==> Update(t) == Some(("interface_name", Decoded(t.payload)))
    ensures t.kind == 10 && |t.payload| < 4 ==> Update(t) == None
    ensures t.kind == 17 && |t.payload| != 4 ==> Update(t) == None
    ensures t.kind !in {1, 5, 7, 8, 10, 11, 12, 16, 17} ==> Update(t) == None
  {
  }

  /** A MAC address is shown byte by byte in lower-case hexadecimal, colons between. */
  lemma {:induction false} MacTextAt(p: Bytes, i: nat)
    requires i < |p|
    ensures |MacText(p)| == 3 * |p| - 1
    ensures MacText(p)[3 * i] == "0123456789abcdef"[p[i] / 16]
    ensures MacText(p)[3 * i + 1] == "0123456789abcdef"[p[i] % 16]
    ensures i < |p| - 1 ==> MacText(p)[3 * i + 2] == ':'
    decreases |p|
  {
    MacTextLength(p);
    HexIs(p[0] / 16);
    HexIs(p[0] % 16);
    if i > 0 {
      MacTextAt(p[1..], i - 1);
      assert MacText(p)[3..] == MacText(p[1..]);
    }
  }

  lemma HexIs(d: nat)
    requires d < 16
    ensures Hex(d) == "0123456789abcdef"[d]
  {
  }

  /** An IPv4 address is shown as its four bytes in decimal, dots between. */
  lemma Ipv4TextIs(a: Byte, b: Byte, c: Byte, d: Byte)
    ensures Update(Tlv(17, [a, b, c, d])) ==
              Some(("ipv4", Shown(Print(a) + "." + Print(b) + "." + Print(c) + "." + Print(d))))
  {
    assert Ipv4Text([a, b, c, d]) == Print(a) + "." + Print(b) + "." + Print(c) + "." + Print(d);
  }

  /** `n` as four bytes, least significant first. */
  function LittleEndian(n: nat): Bytes
    requires n < 0x1_0000_0000
  {
    [n % 256, n / 256 % 256, n / 0x1_0000 % 256, n / 0x100_0000 % 256]
  }

  /** The uptime's first four bytes are its seconds, least significant byte first. */
  lemma UptimeBytes(n: nat, rest: Bytes)
    requires n < 0x1_0000_0000
    ensures Seconds(LittleEndian(n) + rest) == n
  {
    var (low, high) := (n % 0x1_0000, n / 0x1_0000);
    assert n / 256 % 256 == low / 256 && n % 256 == low % 256;
    assert n / 0x100_0000 == high / 256 && high < 0x1_0000;
  }

  /** So an uptime record says its days, hours and minutes. */
  lemma UptimeTextIs(n: nat, rest: Bytes)
    requires n < 0x1_0000_0000
    ensures Update(Tlv(10, LittleEndian(n) + rest)) ==
              Some(("uptime", Shown(Print(n / 86400) + "d " + Print(n % 86400 / 3600) + "h "
                                    + Print(n % 86400 % 3600 / 60) + "m")))
  {
    UptimeBytes(n, rest);
  }

  /** And that is what a packet that ends with such a record decodes to. */
  lemma UptimeIsDecoded(header: Bytes, ts: seq<Tlv>, t: Tlv, n: nat, rest: Bytes)
    requires |header| == 4 && n < 0x1_0000_0000 && t == Tlv(10, LittleEndian(n) + rest) && WellFormed(t)
    requires forall i :: 0 <= i < |ts| ==> WellFormed(ts[i])
    ensures var data := header + EncodeAll(ts + [t]) + [];
            && |data| >= 4
            && Lookup(ApplyAll(map[], Records(data[4..])), "uptime") ==
                 Some(Shown(Print(n / 86400) + "d " + Print(n % 86400 / 3600) + "h "
                            + Print(n % 86400 % 3600 / 60) + "m"))
  {
    DecodeInvertsEncode(header, ts + [t], [], "uptime");
    UptimeTextIs(n, rest);
    LastOneWins(ts, t, "uptime");
  }

  lemma {:induction false} LastOneWins(ts: seq<Tlv>, t: Tlv, name: string)
    requires Update(t).Some? && Update(t).value.0 == name
    ensures LastUpdate(ts + [t], name) == Some(Update(t).value.1)
    decreases ts
  {
    if ts == [] {
      assert ts + [t] == [t] && LastUpdate([t][1..], name) == None;
    } else {
      assert (ts + [t])[1..] == ts[1..] + [t];
      LastOneWins(ts[1..], t, name);
    }
  }
}
