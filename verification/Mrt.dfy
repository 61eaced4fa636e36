/** MRT records (section 2 of RFC 6396), segment contents, and TABLE_DUMP_V2 snapshots (section 4.3). */
module Mrt {
  import opened Common

  const U16 := 0x1_0000
  const U32 := 0x1_0000_0000
  const HEADER_SIZE := 12

  const TABLE_DUMP_V2: nat := 13
  const PEER_INDEX_TABLE: nat := 1
  const RIB_IPV4_UNICAST: nat := 2

  /** A record with its payload as the encoder of the message body produced it. */
  datatype Record = Record(timestamp: nat, kind: nat, subtype: nat, payload: seq<byte>)

  /** The low `k` bytes of `n`, most significant first. */
  function BigEndian(n: nat, k: nat): (b: seq<byte>)
    ensures |b| == k
    decreases k
  {
    if k == 0 then [] else BigEndian(n / 256, k - 1) + [n % 256]
  }

  function Number(b: seq<byte>): nat {
    if b == [] then 0 else 256 * Number(b[..|b| - 1]) + b[|b| - 1]
  }

  /** `as u32`: the low 32 bits. */
  function Truncate32(n: int): nat {
    n % U32
  }

  /** `encode_mrt_message`; the length field is the payload length cut to 32 bits. */
  function Encode(r: Record): (bytes: seq<byte>)
    ensures |bytes| == HEADER_SIZE + |r.payload|
  {
    BigEndian(r.timestamp, 4) + BigEndian(r.kind, 2) + BigEndian(r.subtype, 2) + BigEndian(Truncate32(|r.payload|), 4) + r.payload
  }

  predicate FieldsFit(r: Record) {
    r.timestamp < U32 && r.kind < U16 && r.subtype < U16
  }

  /** One record and the bytes after it. */
  function Parse(bytes: seq<byte>): Option<(Record, seq<byte>)> {
    if |bytes| < HEADER_SIZE then None
    else
      var length := Number(bytes[8..12]);
      if |bytes| < HEADER_SIZE + length then None
      else Some((Record(Number(bytes[0..4]), Number(bytes[4..6]), Number(bytes[6..8]),
                        bytes[HEADER_SIZE..HEADER_SIZE + length]),
                 bytes[HEADER_SIZE + length..]))
  }

  function ParseAll(bytes: seq<byte>): Option<seq<Record>>
    decreases |bytes|
  {
    if bytes == [] then Some([])
    else
      match Parse(bytes)
      case None => None
      case Some((r, rest)) =>
        match ParseAll(rest)
        case None => None
        case Some(rs) => Some([r] + rs)
  }

  function EncodeAll(rs: seq<Record>): seq<byte> {
    if rs == [] then [] else EncodeAll(rs[..|rs| - 1]) + Encode(rs[|rs| - 1])
  }

  predicate Writable(r: Record) {
    FieldsFit(r) && |r.payload| < U32
  }

  function Power256(k: nat): nat {
    if k == 0 then 1 else 256 * Power256(k - 1)
  }

  /** A number that fits is what its bytes say. */
  lemma {:induction false} NumberOfBytes(n: nat, k: nat)
    requires n < Power256(k)
    ensures Number(BigEndian(n, k)) == n
  {
    if k > 0 {
      var b := BigEndian(n, k);
      assert b[..|b| - 1] == BigEndian(n / 256, k - 1);
      NumberOfBytes(n / 256, k - 1);
    }
  }

  /** The most significant byte comes first. */
  lemma {:induction false} BigEndianSpelled(n: nat)
    ensures BigEndian(n, 2) == [n / 256 % 256, n % 256]
  {
    assert BigEndian(n, 2) == BigEndian(n / 256, 1) + [n % 256];
    assert BigEndian(n / 256, 1) == BigEndian(n / 256 / 256, 0) + [n / 256 % 256];
  }

  lemma {:induction false} Widths()
    ensures Power256(2) == U16 && Power256(4) == U32
  {
    assert Power256(2) == 256 * Power256(1) && Power256(1) == 256;
    assert Power256(4) == 256 * Power256(3) && Power256(3) == 256 * Power256(2);
  }

  lemma {:induction false} HeaderFields(r: Record, rest: seq<byte>)
    ensures var s := Encode(r) + rest;
            && s[0..4] == BigEndian(r.timestamp, 4) && s[4..6] == BigEndian(r.kind, 2) && s[6..8] == BigEndian(r.subtype, 2)
            && s[8..12] == BigEndian(Truncate32(|r.payload|), 4) && s[12..] == r.payload + rest
  {
    hide BigEndian;
  }

  lemma {:induction false} HeaderDecodes(r: Record, rest: seq<byte>)
    requires FieldsFit(r)
    ensures var s := Encode(r) + rest;
            && Number(s[0..4]) == r.timestamp && Number(s[4..6]) == r.kind && Number(s[6..8]) == r.subtype
            && Number(s[8..12]) == Truncate32(|r.payload|)
  {
    HeaderFields(r, rest);
    Widths();
    hide Encode, BigEndian, Number, Power256;
    NumberOfBytes(r.timestamp, 4);
    NumberOfBytes(r.kind, 2);
    NumberOfBytes(r.subtype, 2);
    NumberOfBytes(Truncate32(|r.payload|), 4);
  }

  lemma {:induction false} TruncateFits(n: nat)
    ensures Truncate32(n) <= n
    ensures Truncate32(n) == n <==> n < U32
  {
  }

  lemma {:induction false} PayloadSlices(s: seq<byte>, payload: seq<byte>, rest: seq<byte>, n: nat)
    requires |s| == HEADER_SIZE + |payload| + |rest| && s[12..] == payload + rest && n <= |payload|
    ensures |s[HEADER_SIZE..HEADER_SIZE + n]| == n
    ensures n == |payload| ==> s[HEADER_SIZE..HEADER_SIZE + n] == payload && s[HEADER_SIZE + n..] == rest
  {
    assert s[12..12 + n] == s[12..][..n];
    assert s[12 + n..] == s[12..][n..];
  }

  /** A record is read back, with whatever follows it, exactly when its payload length fits the length field. */
  lemma {:induction false} ParseIsInverse(r: Record, rest: seq<byte>)
    requires FieldsFit(r)
    ensures Parse(Encode(r) + rest) == Some((r, rest)) <==> |r.payload| < U32
  {
    var s := Encode(r) + rest;
    var n := Truncate32(|r.payload|);
    HeaderDecodes(r, rest);
    HeaderFields(r, rest);
    hide Encode, BigEndian, Number, FieldsFit;
    TruncateFits(|r.payload|);
    hide Truncate32;
    PayloadSlices(s, r.payload, rest, n);
  }

  lemma {:induction false} ParseAllCons(r: Record, tail: seq<byte>)
    requires Writable(r) && ParseAll(tail).Some?
    ensures ParseAll(Encode(r) + tail) == Some([r] + ParseAll(tail).value)
  {
    ParseIsInverse(r, tail);
    hide Encode, Parse;
  }

  lemma {:induction false} ParseAfter(rs: seq<Record>, tail: seq<byte>)
    requires forall i :: 0 <= i < |rs| ==> Writable(rs[i])
    requires ParseAll(tail).Some?
    ensures ParseAll(EncodeAll(rs) + tail) == Some(rs + ParseAll(tail).value)
    decreases |rs|
  {
    hide Encode, Parse, ParseAll, Writable;
    if rs == [] {
      assert EncodeAll(rs) + tail == tail && rs + ParseAll(tail).value == ParseAll(tail).value;
    } else {
      var n := |rs| - 1;
      var r := rs[n];
      ParseAllCons(r, tail);
      assert forall i :: 0 <= i < n ==> rs[..n][i] == rs[i];
      ParseAfter(rs[..n], Encode(r) + tail);
      assert EncodeAll(rs) + tail == EncodeAll(rs[..n]) + (Encode(r) + tail);
      assert rs[..n] + ([r] + ParseAll(tail).value) == rs + ParseAll(tail).value;
    }
  }

  /** The bytes of a segment parse into exactly the records written, in write order. */
  lemma {:induction false} SegmentParses(rs: seq<Record>)
    requires forall i :: 0 <= i < |rs| ==> Writable(rs[i])
    ensures ParseAll(EncodeAll(rs)) == Some(rs)
  {
    ParseAfter(rs, []);
    assert EncodeAll(rs) + [] == EncodeAll(rs) && rs + [] == rs;
  }

  /** The segment writer: encoder input and record counter. */
  class SegmentWriter {
    var bytes: seq<byte>
    var recordCount: nat
    ghost var written: seq<Record>

    ghost predicate Valid()
      reads this
    {
      bytes == EncodeAll(written) && recordCount == |written|
    }

    constructor ()
      ensures Valid() && written == []
    {
      bytes, recordCount, written := [], 0, [];
    }

    /** The counter counts records, and while every record fits its header the bytes parse into exactly those. */
    method WriteRecord(r: Record)
      requires Valid()
      modifies this
      ensures Valid() && written == old(written) + [r] && recordCount == |written|
      ensures (forall i :: 0 <= i < |written| ==> Writable(written[i])) ==> ParseAll(bytes) == Some(written)
    {
      bytes := bytes + Encode(r);
      recordCount := recordCount + 1;
      assert (written + [r])[..|written|] == written;
      written := written + [r];
      hide Writable;
      if forall i :: 0 <= i < |written| ==> Writable(written[i]) {
        SegmentParses(written);
      }
    }
  }

  // ----- TABLE_DUMP_V2

  datatype Peer = Peer(bgpId: nat, ip: string, asn: nat)

  datatype Route = Route(sequence: nat, prefix: nat, prefixLen: nat, peerIndex: nat, originated: nat, attributes: seq<byte>)

  datatype Snapshot = Snapshot(timestamp: int, collector: nat, view: string, peers: seq<Peer>, routes: seq<Route>)

  datatype PeerIndexTable = PeerIndexTable(collector: nat, view: string, byId: map<nat, Peer>, idByIp: map<string, nat>)

  datatype DumpError = TooManyPeers | BadPrefixLength(len: nat) | UnknownPeer(index: nat) | BadAttributes

  /** A RIB entry as handed to the encoder. */
  datatype RibEntry = RibEntry(sequence: nat, prefix: nat, prefixLen: nat, peerIndex: nat, originated: nat, attributes: seq<byte>)

  datatype Body = PeerIndex(table: PeerIndexTable) | Rib(entry: RibEntry)

  datatype DumpRecord = DumpRecord(timestamp: nat, subtype: nat, body: Body)

  /** Index `j` names peer `j`, for the first `n` peers and no others. */
  predicate IndexesPeers(byId: map<nat, Peer>, peers: seq<Peer>, n: nat)
    requires n <= |peers|
  {
    && (forall j :: 0 <= j < n ==> j in byId && byId[j] == peers[j])
    && (forall j :: j in byId ==> j < n)
  }

  /** An address leads to the last of the first `n` peers that has it. */
  predicate IndexesAddresses(idByIp: map<string, nat>, peers: seq<Peer>, n: nat)
    requires n <= |peers|
  {
    && (forall ip :: ip in idByIp ==> idByIp[ip] < n && peers[idByIp[ip]].ip == ip)
    && (forall j :: 0 <= j < n ==> peers[j].ip in idByIp && j <= idByIp[peers[j].ip])
  }

  predicate IsPeerIndexOf(t: PeerIndexTable, s: Snapshot) {
    && t.collector == s.collector && t.view == s.view
    && IndexesPeers(t.byId, s.peers, |s.peers|)
    && IndexesAddresses(t.idByIp, s.peers, |s.peers|)
  }

  lemma {:induction false} IndexNext(byId: map<nat, Peer>, idByIp: map<string, nat>, peers: seq<Peer>, n: nat)
    requires n < |peers| && IndexesPeers(byId, peers, n) && IndexesAddresses(idByIp, peers, n)
    ensures IndexesPeers(byId[n := peers[n]], peers, n + 1)
    ensures IndexesAddresses(idByIp[peers[n].ip := n], peers, n + 1)
  {
  }

  /** `idx as u16` is exact because of the count check; the last peer with an address owns its entry. */
  method BuildPeerIndexTable(s: Snapshot) returns (r: Result<PeerIndexTable, DumpError>)
    ensures r == Err(TooManyPeers) <==> |s.peers| >= 0x1_0000
    ensures r.Ok? <==> |s.peers| < 0x1_0000
    ensures r.Ok? ==> IsPeerIndexOf(r.value, s)
  {
    if |s.peers| > U16 - 1 {
      return Err(TooManyPeers);
    }
    var byId: map<nat, Peer> := map[];
    var idByIp: map<string, nat> := map[];
    assert IndexesPeers(byId, s.peers, 0) && IndexesAddresses(idByIp, s.peers, 0);
    hide IndexesPeers, IndexesAddresses;
    for i := 0 to |s.peers|
      invariant IndexesPeers(byId, s.peers, i)
      invariant IndexesAddresses(idByIp, s.peers, i)
    {
      IndexNext(byId, idByIp, s.peers, i);
      var id := i % U16;
      byId := byId[id := s.peers[i]];
      idByIp := idByIp[s.peers[i].ip := id];
    }
    r := Ok(PeerIndexTable(s.collector, s.view, byId, idByIp));
  }

  /** Why a route is refused, if it is; `parses` is what the attribute parser says. */
  function RouteError(s: Snapshot, route: Route, parses: seq<byte> -> bool): (e: Option<DumpError>)
    ensures e.None? <==> route.prefixLen <= 32 && route.peerIndex < |s.peers| && parses(route.attributes)
    ensures forall n: nat :: e == Some(BadPrefixLength(n)) <==> n == route.prefixLen && n > 32
    ensures forall k: nat :: e == Some(UnknownPeer(k)) <==> route.prefixLen <= 32 && k == route.peerIndex && k >= |s.peers|
  {
    if route.prefixLen > 32 then Some(BadPrefixLength(route.prefixLen))
    else if route.peerIndex >= |s.peers| then Some(UnknownPeer(route.peerIndex))
    else if !parses(route.attributes) then Some(BadAttributes)
    else None
  }

  function RibRecord(s: Snapshot, route: Route): DumpRecord {
    DumpRecord(Truncate32(s.timestamp), RIB_IPV4_UNICAST,
               Rib(RibEntry(route.sequence, route.prefix, route.prefixLen, route.peerIndex, route.originated, route.attributes)))
  }

  /** The record is the route's own, and its index leads to the route's own peer. */
  ghost predicate IsEntryOf(d: DumpRecord, table: PeerIndexTable, s: Snapshot, route: Route) {
    && d.subtype == 2 && d.timestamp == s.timestamp % 0x1_0000_0000 && d.body.Rib?
    && d.body.entry.sequence == route.sequence && d.body.entry.prefix == route.prefix && d.body.entry.prefixLen == route.prefixLen
    && d.body.entry.originated == route.originated && d.body.entry.attributes == route.attributes
    && d.body.entry.peerIndex == route.peerIndex < |s.peers| < 0x1_0000
    && d.body.entry.peerIndex in table.byId && table.byId[d.body.entry.peerIndex] == s.peers[route.peerIndex]
  }

  /** A complete dump: the peer index, then one record per route in order. */
  ghost predicate IsDumpOf(rs: seq<DumpRecord>, s: Snapshot) {
    && |rs| == 1 + |s.routes|
    && rs[0].subtype == 1 && rs[0].timestamp == s.timestamp % 0x1_0000_0000
    && rs[0].body.PeerIndex? && IsPeerIndexOf(rs[0].body.table, s)
    && forall i :: 0 <= i < |s.routes| ==> IsEntryOf(rs[i + 1], rs[0].body.table, s, s.routes[i])
  }

  /** The dump succeeds exactly when the peers fit and every route is acceptable; otherwise it reports the first problem. */
  method BuildTableDump(s: Snapshot, parses: seq<byte> -> bool) returns (r: Result<seq<DumpRecord>, DumpError>)
    ensures r.Ok? <==> |s.peers| < 0x1_0000 && forall i :: 0 <= i < |s.routes| ==>
              s.routes[i].prefixLen <= 32 && s.routes[i].peerIndex < |s.peers| && parses(s.routes[i].attributes)
    ensures r.Ok? ==> IsDumpOf(r.value, s)
    ensures r.Err? && |s.peers| < U16 ==>
              exists i :: 0 <= i < |s.routes| && RouteError(s, s.routes[i], parses) == Some(r.error)
                       && forall j :: 0 <= j < i ==> RouteError(s, s.routes[j], parses).None?
  {
    var index := BuildPeerIndexTable(s);
    if index.Err? {
      return Err(index.error);
    }
    var table := index.value;
    var records := [DumpRecord(Truncate32(s.timestamp), PEER_INDEX_TABLE, PeerIndex(table))];
    for i := 0 to |s.routes|
      invariant |records| == 1 + i
      invariant records[0] == DumpRecord(Truncate32(s.timestamp), PEER_INDEX_TABLE, PeerIndex(table))
      invariant forall j :: 0 <= j < i ==> RouteError(s, s.routes[j], parses).None?
      invariant forall j :: 0 <= j < i ==> records[j + 1] == RibRecord(s, s.routes[j])
    {
      var route := s.routes[i];
      if route.prefixLen > 32 {
        return Err(BadPrefixLength(route.prefixLen));
      }
      if route.peerIndex !in table.byId {
        return Err(UnknownPeer(route.peerIndex));
      }
      if !parses(route.attributes) {
        return Err(BadAttributes);
      }
      records := records + [RibRecord(s, route)];
    }
    forall j | 0 <= j < |s.routes|
      ensures IsEntryOf(records[j + 1], table, s, s.routes[j])
    {
      assert RouteError(s, s.routes[j], parses).None?;
    }
    r := Ok(records);
  }

  /** A dump record as bytes are made of it; `payload` is the library's encoding of a body. */
  function ToRecord(d: DumpRecord, payload: Body -> seq<byte>): Record {
    Record(d.timestamp, TABLE_DUMP_V2, d.subtype, payload(d.body))
  }

  function ToRecords(ds: seq<DumpRecord>, payload: Body -> seq<byte>): (rs: seq<Record>)
    ensures |rs| == |ds| && forall i :: 0 <= i < |ds| ==> rs[i] == ToRecord(ds[i], payload)
  {
    seq(|ds|, i requires 0 <= i < |ds| => ToRecord(ds[i], payload))
  }

  /** The bytes of a snapshot segment parse into one peer index record and then one record per route, in order. */
  lemma {:induction false} DumpParses(ds: seq<DumpRecord>, s: Snapshot, payload: Body -> seq<byte>)
    requires IsDumpOf(ds, s) && forall i :: 0 <= i < |ds| ==> |payload(ds[i].body)| < U32
    ensures var parsed := ParseAll(EncodeAll(ToRecords(ds, payload)));
            && parsed.Some? && |parsed.value| == 1 + |s.routes|
            && (forall i :: 0 <= i < |parsed.value| ==>
                  && parsed.value[i].timestamp == s.timestamp % 0x1_0000_0000 && parsed.value[i].kind == 13
                  && parsed.value[i].subtype == (if i == 0 then 1 else 2) && parsed.value[i].payload == payload(ds[i].body))
            && IsPeerIndexOf(ds[0].body.table, s)
            && forall i :: 0 <= i < |s.routes| ==> IsEntryOf(ds[i + 1], ds[0].body.table, s, s.routes[i])
  {
    forall i | 0 <= i < |ds|
      ensures Writable(ToRecord(ds[i], payload)) && ds[i].timestamp == s.timestamp % 0x1_0000_0000
      ensures ds[i].subtype == (if i == 0 then 1 else 2)
    {
      assert i > 0 ==> IsEntryOf(ds[i - 1 + 1], ds[0].body.table, s, s.routes[i - 1]);
    }
    SegmentParses(ToRecords(ds, payload));
  }
}
