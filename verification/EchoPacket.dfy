/** The UDP packets that the echo client and server build and take apart by hand. */
module EchoPacket {
  import opened Basics

  type Port = x: int | 0 <= x < 0x1_0000

  const SERVER_PORT: Port := 8080
  const CLIENT_PORT: Port := 12345
  const UDP: Byte := 17
  const HEADER := 8
  const PACKET_SIZE := 1024

  /** Network byte order. */
  function High(p: Port): Byte { (p / 256) as Byte }
  function Low(p: Port): Byte { (p % 256) as Byte }

  function Word(high: Byte, low: Byte): Port {
    256 * high as int + low as int
  }

  lemma WordIs(p: Port)
    ensures Word(High(p), Low(p)) == p
  {
  }

  /** Source port, destination port, length, checksum 0. */
  function UdpHeader(source: Port, dest: Port, len: Port): (h: seq<Byte>)
    ensures |h| == HEADER
  {
    [High(source), Low(source), High(dest), Low(dest), High(len), Low(len), 0, 0]
  }

  function Datagram(source: Port, dest: Port, payload: seq<Byte>): seq<Byte>
    requires |payload| <= 0xFFFF - HEADER
  {
    UdpHeader(source, dest, (HEADER + |payload|) as Port) + payload
  }

  // ---------- building ----------

  method PutHeader(packet: array<Byte>, source: Port, dest: Port, len: Port)
    requires packet.Length >= HEADER
    modifies packet
    ensures packet[..] == UdpHeader(source, dest, len) + old(packet[HEADER..])
  {
    packet[0], packet[1] := High(source), Low(source);
    packet[2], packet[3] := High(dest), Low(dest);
    packet[4], packet[5] := High(len), Low(len);
    packet[6], packet[7] := 0, 0;
  }

  method CopyPayload(packet: array<Byte>, payload: seq<Byte>, len: nat)
    requires len <= |payload| && HEADER + len <= packet.Length
    modifies packet
    ensures packet[HEADER..HEADER + len] == payload[..len]
    ensures forall i :: HEADER + len <= i < packet.Length ==> packet[i] == old(packet[i])
  {
    var i := 0;
    while i < len
      invariant 0 <= i <= len
      invariant packet[HEADER..HEADER + i] == payload[..i]
      invariant forall k :: HEADER + len <= k < packet.Length ==> packet[k] == old(packet[k])
    {
      packet[HEADER + i] := payload[i];
      assert packet[HEADER..HEADER + (i + 1)] == packet[HEADER..HEADER + i] + [payload[i]];
      i := i + 1;
    }
  }

  function Fitting(payload: seq<Byte>, limit: nat): seq<Byte>
    requires limit >= HEADER
  {
    if |payload| > limit - HEADER then payload[..limit - HEADER] else payload
  }

  /** The server's reply: what does not fit is cut off. */
  method BuildPacket(payload: seq<Byte>, dest: Port, packet: array<Byte>) returns (size: nat)
    requires packet.Length == PACKET_SIZE
    modifies packet
    ensures size <= PACKET_SIZE
    ensures packet[..size] == Datagram(SERVER_PORT, dest, Fitting(payload, PACKET_SIZE))
  {
    var len := |payload|;
    if len > packet.Length - HEADER { len := packet.Length - HEADER; }
    CopyPayload(packet, payload, len);
    ghost var body := packet[HEADER..];
    PutHeader(packet, SERVER_PORT, dest, HEADER + len);
    size := HEADER + len;
    assert body[..len] == payload[..len] == Fitting(payload, PACKET_SIZE);
    assert packet[..size] == UdpHeader(SERVER_PORT, dest, HEADER + len) + body[..len];
  }

  /** The client's message. */
  method SendUdpMessage(message: seq<Byte>, packet: array<Byte>) returns (size: nat)
    requires packet.Length == PACKET_SIZE && HEADER + |message| < PACKET_SIZE
    modifies packet
    ensures size <= PACKET_SIZE
    ensures packet[..size] == Datagram(CLIENT_PORT, SERVER_PORT, message)
    ensures forall i :: size <= i < PACKET_SIZE ==> packet[i] == 0
  {
    var i := 0;
    while i < packet.Length
      invariant 0 <= i <= packet.Length && forall k :: 0 <= k < i ==> packet[k] == 0
    {
      packet[i] := 0;
      i := i + 1;
    }
    CopyPayload(packet, message, |message|);
    ghost var body := packet[HEADER..];
    assert forall k :: 0 <= k < |message| ==> body[k] == message[k];
    PutHeader(packet, CLIENT_PORT, SERVER_PORT, HEADER + |message|);
    size := HEADER + |message|;
    assert body[..|message|] == message;
    assert packet[..size] == UdpHeader(CLIENT_PORT, SERVER_PORT, HEADER + |message|) + body[..|message|];
  }

  // ---------- taking apart ----------

  /** Where the payload lies, as the receiver reckons it from the header fields alone. */
  datatype Located = Located(offset: nat, len: int)

  function IpHeaderLen(buffer: seq<Byte>): nat
    requires |buffer| > 0
  {
    buffer[0] as int % 16 * 4
  }

  function PortAt(buffer: seq<Byte>, i: nat): Port
    requires i + 1 < |buffer|
  {
    Word(buffer[i], buffer[i + 1])
  }

  /** The server's test and arithmetic. */
  function ParseUdp(buffer: seq<Byte>): Option<Located>
    requires |buffer| >= 68
  {
    if buffer[9] != UDP then None
    else
      var h := IpHeaderLen(buffer);
      if PortAt(buffer, h + 2) != SERVER_PORT then None
      else Some(Located(h + HEADER, PortAt(buffer, h + 4) - HEADER))
  }

  /** The client's. */
  function ParseReply(buffer: seq<Byte>): Option<Located>
    requires |buffer| >= 68
  {
    var h := IpHeaderLen(buffer);
    if PortAt(buffer, h + 2) != CLIENT_PORT then None
    else if PortAt(buffer, h) != SERVER_PORT then None
    else
      var len := PortAt(buffer, h + 4) - HEADER;
      if len <= 0 then None else Some(Located(h + HEADER, len))
  }

  /** A received buffer: an IP header of 5 to 15 words, a datagram, and whatever follows. */
  ghost predicate Carries(buffer: seq<Byte>, ip: seq<Byte>, datagram: seq<Byte>) {
    && 20 <= |ip| <= 60 && |ip| % 4 == 0
    && ip[0] as int % 16 == |ip| / 4
    && ip[9] == UDP
    && |buffer| >= 68 && |ip| + |datagram| <= |buffer|
    && buffer[..|ip|] == ip && buffer[|ip|..|ip| + |datagram|] == datagram
  }

  lemma FieldsArrive(buffer: seq<Byte>, ip: seq<Byte>, source: Port, dest: Port, payload: seq<Byte>)
    requires |payload| <= 0xFFFF - HEADER && Carries(buffer, ip, Datagram(source, dest, payload))
    ensures buffer[9] == UDP && IpHeaderLen(buffer) == |ip|
    ensures PortAt(buffer, |ip|) == source && PortAt(buffer, |ip| + 2) == dest
    ensures PortAt(buffer, |ip| + 4) == HEADER + |payload|
    ensures buffer[|ip| + HEADER..|ip| + HEADER + |payload|] == payload
  {
    var d := Datagram(source, dest, payload);
    IpPartArrives(buffer, ip, d);
    HeaderFields(source, dest, payload);
    forall k | 0 <= k < HEADER ensures buffer[|ip| + k] == d[k] {
      assert buffer[|ip|..|ip| + |d|][k] == buffer[|ip| + k];
    }
    assert d[HEADER..] == payload;
    assert buffer[|ip| + HEADER..|ip| + HEADER + |payload|] == buffer[|ip|..|ip| + |d|][HEADER..];
  }

  lemma IpPartArrives(buffer: seq<Byte>, ip: seq<Byte>, d: seq<Byte>)
    requires Carries(buffer, ip, d)
    ensures buffer[9] == UDP && IpHeaderLen(buffer) == |ip|
  {
    assert buffer[9] == buffer[..|ip|][9] && buffer[0] == buffer[..|ip|][0];
  }

  lemma HeaderFields(source: Port, dest: Port, payload: seq<Byte>)
    requires |payload| <= 0xFFFF - HEADER
    ensures var d := Datagram(source, dest, payload);
            && |d| == HEADER + |payload|
            && Word(d[0], d[1]) == source && Word(d[2], d[3]) == dest && Word(d[4], d[5]) == HEADER + |payload|
  {
    WordIs(source);
    WordIs(dest);
    WordIs(HEADER + |payload|);
  }

  /** Every field is stored high byte first: source port, destination port, length of header and
      payload, and a checksum of 0; then the payload. */
  lemma NetworkByteOrder(source: Port, dest: Port, payload: seq<Byte>)
    requires |payload| <= 0xFFFF - HEADER
    ensures var d := Datagram(source, dest, payload);
            && |d| == 8 + |payload|
            && 256 * (d[0] as int) + d[1] as int == source
            && 256 * (d[2] as int) + d[3] as int == dest
            && 256 * (d[4] as int) + d[5] as int == 8 + |payload|
            && d[6] == 0 && d[7] == 0 && d[8..] == payload
  {
    HeaderFields(source, dest, payload);
    assert Datagram(source, dest, payload)[8..] == payload;
  }

  /** Whatever the client sends, the server finds. */
  lemma ServerReadsClient(buffer: seq<Byte>, ip: seq<Byte>, payload: seq<Byte>)
    requires |payload| <= 0xFFFF - HEADER && Carries(buffer, ip, Datagram(CLIENT_PORT, SERVER_PORT, payload))
    ensures ParseUdp(buffer) == Some(Located(|ip| + HEADER, |payload|))
    ensures buffer[|ip| + HEADER..|ip| + HEADER + |payload|] == payload
  {
    FieldsArrive(buffer, ip, CLIENT_PORT, SERVER_PORT, payload);
  }

  lemma ClientReads(buffer: seq<Byte>, ip: seq<Byte>, payload: seq<Byte>)
    requires |payload| <= 0xFFFF - HEADER && Carries(buffer, ip, Datagram(SERVER_PORT, CLIENT_PORT, payload))
    ensures ParseReply(buffer) == if payload == [] then None else Some(Located(|ip| + HEADER, |payload|))
    ensures buffer[|ip| + HEADER..|ip| + HEADER + |payload|] == payload
  {
    FieldsArrive(buffer, ip, SERVER_PORT, CLIENT_PORT, payload);
    ReplyFields(buffer, |ip|, |payload|);
  }

  lemma ReplyFields(buffer: seq<Byte>, h: nat, len: nat)
    requires |buffer| >= 68 && IpHeaderLen(buffer) == h
    requires PortAt(buffer, h) == SERVER_PORT && PortAt(buffer, h + 2) == CLIENT_PORT
    requires PortAt(buffer, h + 4) == HEADER + len
    ensures ParseReply(buffer) == if len == 0 then None else Some(Located(h + HEADER, len))
  {
  }

  /** Whatever the server replies, the client finds, cut to 1016 bytes; an empty reply it
      ignores. */
  lemma ClientReadsServer(buffer: seq<Byte>, ip: seq<Byte>, reply: seq<Byte>)
    requires Carries(buffer, ip, Datagram(SERVER_PORT, CLIENT_PORT, Fitting(reply, PACKET_SIZE)))
    ensures var shown := if |reply| <= 1016 then reply else reply[..1016];
            && ParseReply(buffer) == (if shown == [] then None else Some(Located(|ip| + HEADER, |shown|)))
            && |ip| + HEADER + |shown| <= |buffer|
            && buffer[|ip| + HEADER..|ip| + HEADER + |shown|] == shown
  {
    ClientReads(buffer, ip, Fitting(reply, PACKET_SIZE));
  }

  /** The server takes no packet of another protocol. */
  lemma OtherProtocolsIgnored(buffer: seq<Byte>)
    requires |buffer| >= 68 && buffer[9] != 17
    ensures ParseUdp(buffer) == None
  {
  }

  /** A packet for another port is not taken. */
  lemma OtherPortsIgnored(buffer: seq<Byte>, ip: seq<Byte>, source: Port, dest: Port, payload: seq<Byte>)
    requires |payload| <= 0xFFFF - HEADER && Carries(buffer, ip, Datagram(source, dest, payload))
    ensures dest != SERVER_PORT ==> ParseUdp(buffer) == None
    ensures dest != CLIENT_PORT || source != SERVER_PORT ==> ParseReply(buffer) == None
  {
    FieldsArrive(buffer, ip, source, dest, payload);
  }
}
