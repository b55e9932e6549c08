/** The live packet sniffer (`packet_sniffer.py`): for each captured packet,
    the packet counter, the protocol and port read off its layers, the
    rate/port heuristic that labels it, and the decision to save it. The
    capture itself and the HTTP notification are not modelled; a packet is
    an abstract record of the layers the sniffer looks at, and the clock is
    a parameter. */
module PacketSniffer {
  import opened Wrappers
  import opened Events
  import opened Database

  /** The IP layer's addresses. */
  datatype IpLayer = IpLayer(src: string, dst: string)

  /** A captured packet: its IP layer if any, its length, the destination
      port of its TCP and UDP layers if present, and whether it has an ICMP
      layer. */
  datatype Packet = Packet(ip: Option<IpLayer>, length: nat, tcp: Option<nat>, udp: Option<nat>, icmp: bool)

  /** The record the sniffer builds for a packet it keeps. */
  datatype Sniffed = Sniffed(
    timestamp: string,
    sourceIp: string,
    destinationIp: string,
    protocol: string,
    packetSize: nat,
    destPort: nat,
    kind: string,
    riskScore: int)

  const Loopback: string := "127.0.0.1"
  const Normal: string := "Normal"

  /** TCP, then UDP, then ICMP, then OTHER: the first layer present names
      the protocol. */
  function Protocol(p: Packet): (r: string)
    ensures r == "TCP" <==> p.tcp.Some?
    ensures r == "UDP" <==> p.tcp.None? && p.udp.Some?
    ensures r == "ICMP" <==> p.tcp.None? && p.udp.None? && p.icmp
    ensures r == "OTHER" <==> p.tcp.None? && p.udp.None? && !p.icmp
  {
    if p.tcp.Some? then "TCP" else if p.udp.Some? then "UDP" else if p.icmp then "ICMP" else "OTHER"
  }

  /** The destination port of the TCP layer, else of the UDP layer, else 0. */
  function DestPort(p: Packet): (r: nat)
    ensures p.tcp.Some? ==> r == p.tcp.value
    ensures p.tcp.None? && p.udp.Some? ==> r == p.udp.value
    ensures p.tcp.None? && p.udp.None? ==> r == 0
  {
    match p.tcp
    case Some(port) => port
    case None => p.udp.GetOr(0)
  }

  /** The heuristic, first rule that fires wins: SSH or RDP port after the
      tenth packet is Brute Force (75); a large ICMP packet is DDoS (90);
      past the hundredth packet anything is DDoS (85); otherwise Normal
      (10). `count` is the counter including this packet. */
  function Label(port: nat, length: nat, protocol: string, count: nat): (r: (string, int))
    ensures r == ("Brute Force", 75) <==> port in {22, 3389} && count > 10
    ensures r == ("DDoS", 90) <==> !(port in {22, 3389} && count > 10) && length > 1000 && protocol == "ICMP"
    ensures r == ("DDoS", 85) <==>
              !(port in {22, 3389} && count > 10) && !(length > 1000 && protocol == "ICMP") && count > 100
    ensures r == (Normal, 10) <==>
              !(port in {22, 3389} && count > 10) && !(length > 1000 && protocol == "ICMP") && count <= 100
  {
    if port in {22, 3389} && count > 10 then ("Brute Force", 75)
    else if length > 1000 && protocol == "ICMP" then ("DDoS", 90)
    else if count > 100 then ("DDoS", 85)
    else (Normal, 10)
  }

  /** Past the hundredth packet the heuristic labels every packet a threat. */
  lemma EverythingIsAThreatAfterHundred(port: nat, length: nat, protocol: string, count: nat)
    requires count > 100
    ensures Label(port, length, protocol, count).0 != Normal
    ensures Label(port, length, protocol, count).1 >= 75
  {
  }

  /** `process_packet`: the new counter and the record saved, if any. A
      packet without an IP layer is ignored and not counted; any other
      packet is counted BEFORE the loopback filter, so loopback packets are
      counted but never kept; a kept packet is saved when it is a threat or
      when the counter is a multiple of 50. */
  function ProcessPacket(count: nat, p: Packet, now: string): (r: (nat, Option<Sniffed>))
    ensures p.ip.None? ==> r == (count, None)
    ensures p.ip.Some? ==> r.0 == count + 1
    ensures r.1.Some? <==>
              && p.ip.Some? && p.ip.value.src != Loopback
              && (Label(DestPort(p), p.length, Protocol(p), count + 1).0 != Normal || (count + 1) % 50 == 0)
    ensures r.1.Some? ==>
              var lab := Label(DestPort(p), p.length, Protocol(p), count + 1);
              r.1.value == Sniffed(now, p.ip.value.src, p.ip.value.dst, Protocol(p), p.length, DestPort(p), lab.0, lab.1)
  {
    match p.ip
    case None => (count, None)
    case Some(layer) =>
      var n := count + 1;
      if layer.src == Loopback then (n, None)
      else
        var lab := Label(DestPort(p), p.length, Protocol(p), n);
        if lab.0 != Normal || n % 50 == 0 then
          (n, Some(Sniffed(now, layer.src, layer.dst, Protocol(p), p.length, DestPort(p), lab.0, lab.1)))
        else (n, None)
  }

  /** The sniffer over a stream of packets: the final counter and the
      records saved, in capture order. */
  function Run(count: nat, packets: seq<Packet>, now: string): (r: (nat, seq<Sniffed>))
    decreases |packets|
  {
    if |packets| == 0 then (count, [])
    else
      var step := ProcessPacket(count, packets[0], now);
      var rest := Run(step.0, packets[1..], now);
      (rest.0, if step.1.Some? then [step.1.value] + rest.1 else rest.1)
  }

  /** The number of packets that carry an IP layer. */
  function IpPackets(packets: seq<Packet>): nat {
    if |packets| == 0 then 0 else (if packets[0].ip.Some? then 1 else 0) + IpPackets(packets[1..])
  }

  /** Over a stream the counter grows by exactly the number of IP packets,
      at most one record is saved per packet, and nothing saved comes from
      the loopback address. */
  lemma {:induction false} RunCounts(count: nat, packets: seq<Packet>, now: string)
    ensures Run(count, packets, now).0 == count + IpPackets(packets)
    ensures |Run(count, packets, now).1| <= IpPackets(packets)
    ensures forall s :: s in Run(count, packets, now).1 ==> s.sourceIp != Loopback
    decreases |packets|
  {
    if |packets| > 0 {
      var step := ProcessPacket(count, packets[0], now);
      RunCounts(step.0, packets[1..], now);
    }
  }

  /** The saved record as it reaches the persistence layer: it has no `id`
      and its label sits under "label", not "predicted_label"; the country
      is always "UNK". */
  function ToEvent(s: Sniffed): (e: Event)
    ensures e.id.None? && e.predictedLabel.None? && e.sourceCountry == Some("UNK")
    ensures e.riskScore == Some(s.riskScore as real) && e.sourceIp == Some(s.sourceIp)
  {
    Event(None, Some(s.timestamp), Some(s.sourceIp), Some(s.destinationIp), None,
          Some(s.riskScore as real), None, None, Some("UNK"), None)
  }

  /** Saving a packet goes through `save_event`. Having no id, it always
      lands in the local cache, even in remote mode. */
  function SavePacket(g: Gateway, count: nat, p: Packet, now: string, remoteOk: bool, write: DiskWrite)
    : (r: (nat, Gateway))
    ensures r.0 == ProcessPacket(count, p, now).0
    ensures r.1.remote == g.remote && r.1.mode == g.mode
    ensures ProcessPacket(count, p, now).1.None? ==> r.1 == g
  {
    var step := ProcessPacket(count, p, now);
    match step.1
    case None => (step.0, g)
    case Some(s) => (step.0, SaveEvent(g, ToEvent(s), remoteOk, write))
  }

  /** Two saved packets share one slot of the local cache: the second
      id-less record overwrites the first, so the cache does not grow. */
  lemma SavedPacketsShareOneSlot(ls: seq<Event>, a: Sniffed, b: Sniffed)
    ensures Upsert(Upsert(ls, ToEvent(a)), ToEvent(b)) == Upsert(ls, ToEvent(b))
    ensures |Upsert(Upsert(ls, ToEvent(a)), ToEvent(b))| <= |ls| + 1
  {
    UpsertTwice(ls, ToEvent(a), ToEvent(b));
  }
}
