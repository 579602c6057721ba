/** The DNS wire codec (section 4.1 of RFC 1035; sections 2.2 and 7.3 of RFC 9460). */
module DnsWire {
  import opened Bytes

  const HEADER_SIZE := 12
  const MAX_LABEL := 63
  /** What the parser still takes for a label length rather than a pointer. */
  const LABEL_LIMIT := 192

  datatype DnsError = ShortResponse | BadName | BadPointer | TruncatedQuestion | TruncatedRR | TruncatedRdata

  datatype Result<+T> = Ok(value: T) | Err(error: DnsError)

  datatype RR = RR(typ: nat, rdata: Bytes)

  // ---- parsing ----

  /** Where the name at `off` ends. */
  function SkipName(m: Bytes, off: nat): (r: Result<nat>)
    ensures r.Ok? ==> off < r.value <= |m|
    decreases |m| - off
  {
    if off >= |m| then Err(BadName)
    else if m[off] == 0 then Ok(off + 1)
    else if m[off] >= LABEL_LIMIT then if off + 1 >= |m| then Err(BadPointer) else Ok(off + 2)
    else SkipName(m, off + 1 + m[off])
  }

  function SkipQuestions(m: Bytes, off: nat, n: nat): (r: Result<nat>)
    requires off <= |m|
    ensures r.Ok? ==> off <= r.value <= |m|
    decreases n
  {
    if n == 0 then Ok(off)
    else match SkipName(m, off)
      case Err(e) => Err(e)
      case Ok(p) => if p + 4 > |m| then Err(TruncatedQuestion) else SkipQuestions(m, p + 4, n - 1)
  }

  /** One record, and where it ends. */
  function ReadRecord(m: Bytes, off: nat): (r: Result<(RR, nat)>)
    requires off <= |m|
    ensures r.Ok? ==> off < r.value.1 <= |m|
  {
    match SkipName(m, off)
    case Err(e) => Err(e)
    case Ok(p) =>
      if p + 10 > |m| then Err(TruncatedRR)
      else
        var rdlen := GetU16(m, p + 8);
        if p + 10 + rdlen > |m| then Err(TruncatedRdata)
        else Ok((RR(GetU16(m, p), m[p + 10..p + 10 + rdlen]), p + 10 + rdlen))
  }

  function ReadRecords(m: Bytes, off: nat, n: nat): Result<seq<RR>>
    requires off <= |m|
    decreases n
  {
    if n == 0 then Ok([])
    else match ReadRecord(m, off)
      case Err(e) => Err(e)
      case Ok((rr, p)) =>
        match ReadRecords(m, p, n - 1)
        case Err(e) => Err(e)
        case Ok(rrs) => Ok([rr] + rrs)
  }

  function AnswersOf(m: Bytes): Result<seq<RR>> {
    if |m| < HEADER_SIZE then Err(ShortResponse)
    else match SkipQuestions(m, HEADER_SIZE, GetU16(m, 4))
      case Err(e) => Err(e)
      case Ok(p) => ReadRecords(m, p, GetU16(m, 6))
  }

  method SkipNameLoop(m: Bytes, start: nat) returns (r: Result<nat>)
    ensures r == SkipName(m, start)
  {
    var off := start;
    while true
      invariant SkipName(m, start) == SkipName(m, off)
      decreases |m| - off
    {
      if off >= |m| {
        return Err(BadName);
      }
      var l: nat := m[off];
      if l == 0 {
        return Ok(off + 1);
      }
      if l >= LABEL_LIMIT {
        if off + 1 >= |m| {
          return Err(BadPointer);
        }
        return Ok(off + 2);
      }
      off := off + 1 + l;
    }
  }

  method SkipQuestionsLoop(m: Bytes, start: nat, qd: nat) returns (r: Result<nat>)
    requires start <= |m|
    ensures r == SkipQuestions(m, start, qd)
  {
    hide SkipName;
    var off: nat := start;
    for i := 0 to qd
      invariant off <= |m|
      invariant SkipQuestions(m, start, qd) == SkipQuestions(m, off, qd - i)
    {
      var p := SkipNameLoop(m, off);
      if p.Err? {
        return Err(p.error);
      }
      if p.value + 4 > |m| {
        return Err(TruncatedQuestion);
      }
      off := p.value + 4;
    }
    return Ok(off);
  }

  method ReadRecordOnce(m: Bytes, start: nat) returns (r: Result<(RR, nat)>)
    requires start <= |m|
    ensures r == ReadRecord(m, start)
  {
    hide SkipName;
    var p := SkipNameLoop(m, start);
    if p.Err? {
      return Err(p.error);
    }
    var off := p.value;
    if off + 10 > |m| {
      return Err(TruncatedRR);
    }
    var typ, rdlen := GetU16(m, off), GetU16(m, off + 8);
    off := off + 10;
    if off + rdlen > |m| {
      return Err(TruncatedRdata);
    }
    return Ok((RR(typ, m[off..off + rdlen]), off + rdlen));
  }

  method ReadRecordsLoop(m: Bytes, start: nat, an: nat) returns (r: Result<seq<RR>>)
    requires start <= |m|
    ensures r == ReadRecords(m, start, an)
  {
    hide ReadRecord;
    var out: seq<RR> := [];
    var off: nat := start;
    ghost var whole := ReadRecords(m, start, an);
    assert whole.Ok? ==> [] + whole.value == whole.value;
    for i := 0 to an
      invariant off <= |m|
      invariant match ReadRecords(m, off, an - i)
        case Ok(more) => whole == Ok(out + more)
        case Err(e) => whole == Err(e)
    {
      var rr := ReadRecordOnce(m, off);
      if rr.Err? {
        return Err(rr.error);
      }
      ghost var rest := ReadRecords(m, rr.value.1, an - i - 1);
      if rest.Ok? {
        Assoc(out, [rr.value.0], rest.value);
      }
      out := out + [rr.value.0];
      off := rr.value.1;
    }
    assert out + [] == out;
    return Ok(out);
  }

  /** iterAnswers: no index is ever out of range and the loops end, for every byte string. */
  method IterAnswers(m: Bytes) returns (r: Result<seq<RR>>)
    ensures r == AnswersOf(m)
  {
    if |m| < HEADER_SIZE {
      return Err(ShortResponse);
    }
    var qd, an := GetU16(m, 4), GetU16(m, 6);
    var off := SkipQuestionsLoop(m, HEADER_SIZE, qd);
    if off.Err? {
      return Err(off.error);
    }
    r := ReadRecordsLoop(m, off.value, an);
  }

  // ---- messages ----

  datatype NameEnd = Root | Pointer(high: byte, low: byte)

  /** Labels, then the root or a compression pointer. */
  datatype Name = Name(labels: seq<Bytes>, end: NameEnd) {
    predicate Valid() {
      && (forall i :: 0 <= i < |labels| ==> 0 < |labels[i]| < 192)
      && (end.Pointer? ==> end.high >= 192)
    }
  }

  function LabelsWire(ls: seq<Bytes>): Bytes
    requires forall i :: 0 <= i < |ls| ==> |ls[i]| < 256
  {
    if ls == [] then [] else [|ls[0]|] + ls[0] + LabelsWire(ls[1..])
  }

  function NameWire(n: Name): Bytes
    requires n.Valid()
  {
    LabelsWire(n.labels) + (match n.end case Root => [0] case Pointer(high, low) => [high, low])
  }

  lemma {:induction false} SkipNameOf(pre: Bytes, n: Name, post: Bytes)
    requires n.Valid()
    ensures SkipName(pre + NameWire(n) + post, |pre|) == Ok(|pre| + |NameWire(n)|)
    decreases |n.labels|
  {
    var m := pre + NameWire(n) + post;
    if n.labels == [] {
      match n.end {
        case Root => assert m[|pre|] == 0;
        case Pointer(high, low) => assert m[|pre|] == high;
      }
    } else {
      var l, rest := n.labels[0], Name(n.labels[1..], n.end);
      assert NameWire(n) == [|l|] + l + NameWire(rest);
      var skipped := pre + ([|l|] + l);
      assert m == skipped + NameWire(rest) + post;
      assert m[|pre|] == |l|;
      SkipNameOf(skipped, rest, post);
    }
  }

  datatype Question = Question(name: Name, qtype: nat, qclass: nat) {
    predicate Valid() {
      name.Valid() && qtype < 0x1_0000 && qclass < 0x1_0000
    }
  }

  datatype Record = Record(name: Name, typ: nat, cls: nat, ttl: Bytes, rdata: Bytes) {
    predicate Valid() {
      name.Valid() && typ < 0x1_0000 && cls < 0x1_0000 && |ttl| == 4 && |rdata| < 0x1_0000
    }
  }

  type Questions = qs: seq<Question> | forall i :: 0 <= i < |qs| ==> qs[i].Valid()
  type Records = rs: seq<Record> | forall i :: 0 <= i < |rs| ==> rs[i].Valid()

  function QuestionWire(q: Question): Bytes
    requires q.Valid()
  {
    NameWire(q.name) + (U16(q.qtype) + U16(q.qclass))
  }

  function RecordWire(r: Record): Bytes
    requires r.Valid()
  {
    NameWire(r.name) + (U16(r.typ) + U16(r.cls) + r.ttl + U16(|r.rdata|) + r.rdata)
  }

  function QuestionsWire(qs: Questions): Bytes {
    if qs == [] then [] else QuestionWire(qs[0]) + QuestionsWire(qs[1..])
  }

  function RecordsWire(rs: Records): Bytes {
    if rs == [] then [] else RecordWire(rs[0]) + RecordsWire(rs[1..])
  }

  /** Header, questions, answers; `id` and `flags` are two bytes each, `counts` the last four of the header. */
  function MessageWire(idFlags: Bytes, counts: Bytes, qs: Questions, rs: Records): Bytes
    requires |idFlags| == 4 && |counts| == 4 && |qs| < 0x1_0000 && |rs| < 0x1_0000
  {
    idFlags + U16(|qs|) + U16(|rs|) + counts + QuestionsWire(qs) + RecordsWire(rs)
  }

  function Contents(rs: seq<Record>): seq<RR> {
    if rs == [] then [] else [RR(rs[0].typ, rs[0].rdata)] + Contents(rs[1..])
  }

  lemma {:induction false} SkipQuestionsOf(pre: Bytes, qs: Questions, post: Bytes)
    ensures SkipQuestions(pre + QuestionsWire(qs) + post, |pre|, |qs|) == Ok(|pre| + |QuestionsWire(qs)|)
    decreases |qs|
  {
    hide NameWire, SkipName;
    var m := pre + QuestionsWire(qs) + post;
    if qs != [] {
      var q := qs[0];
      var after := U16(q.qtype) + U16(q.qclass) + (QuestionsWire(qs[1..]) + post);
      assert m == pre + NameWire(q.name) + after;
      SkipNameOf(pre, q.name, after);
      assert m == (pre + QuestionWire(q)) + QuestionsWire(qs[1..]) + post;
      SkipQuestionsOf(pre + QuestionWire(q), qs[1..], post);
    }
  }

  lemma ReadRecordOf(pre: Bytes, r: Record, post: Bytes)
    requires r.Valid()
    ensures |pre| <= |pre + RecordWire(r) + post|
    ensures ReadRecord(pre + RecordWire(r) + post, |pre|) == Ok((RR(r.typ, r.rdata), |pre| + |RecordWire(r)|))
  {
    hide NameWire, SkipName;
    var m := pre + RecordWire(r) + post;
    var fixed := U16(r.typ) + U16(r.cls) + r.ttl + U16(|r.rdata|) + r.rdata;
    assert m == pre + NameWire(r.name) + (fixed + post);
    SkipNameOf(pre, r.name, fixed + post);
    var p := |pre| + |NameWire(r.name)|;
    assert m[p] == fixed[0] == r.typ / 256 && m[p + 1] == fixed[1] == r.typ % 256;
    assert m[p + 8] == fixed[8] == |r.rdata| / 256 && m[p + 9] == fixed[9] == |r.rdata| % 256;
    assert m[p + 10..p + 10 + |r.rdata|] == r.rdata;
  }

  lemma {:induction false} ReadRecordsOf(pre: Bytes, rs: Records, post: Bytes)
    ensures ReadRecords(pre + RecordsWire(rs) + post, |pre|, |rs|) == Ok(Contents(rs))
    decreases |rs|
  {
    hide RecordWire, ReadRecord;
    var m := pre + RecordsWire(rs) + post;
    if rs != [] {
      var r := rs[0];
      assert m == pre + RecordWire(r) + (RecordsWire(rs[1..]) + post);
      ReadRecordOf(pre, r, RecordsWire(rs[1..]) + post);
      assert m == (pre + RecordWire(r)) + RecordsWire(rs[1..]) + post;
      ReadRecordsOf(pre + RecordWire(r), rs[1..], post);
    }
  }

  /** Parsing a serialised message gives back exactly its answer records, whatever its names, whatever follows
      them. */
  lemma AnswersRoundTrip(idFlags: Bytes, counts: Bytes, qs: Questions, rs: Records, post: Bytes)
    requires |idFlags| == 4 && |counts| == 4 && |qs| < 0x1_0000 && |rs| < 0x1_0000
    ensures AnswersOf(MessageWire(idFlags, counts, qs, rs) + post) == Ok(Contents(rs))
  {
    hide QuestionsWire, RecordsWire, AnswersOf, Contents;
    var header := idFlags + U16(|qs|) + U16(|rs|) + counts;
    var q, r := QuestionsWire(qs), RecordsWire(rs);
    Regroup(header, q, r, post);
    HeaderCounts(idFlags, |qs|, |rs|, counts, q + r + post);
    AnswersFrom(header, qs, rs, post);
  }

  lemma AnswersFrom(header: Bytes, qs: Questions, rs: Records, post: Bytes)
    requires |header| == HEADER_SIZE
    requires var m := header + (QuestionsWire(qs) + RecordsWire(rs) + post);
      GetU16(m, 4) == |qs| && GetU16(m, 6) == |rs|
    ensures AnswersOf(header + (QuestionsWire(qs) + RecordsWire(rs) + post)) == Ok(Contents(rs))
  {
    hide QuestionsWire, RecordsWire, SkipQuestions, ReadRecords, Contents, GetU16;
    var q, r := QuestionsWire(qs), RecordsWire(rs);
    Regroup(header, q, r, post);
    SkipQuestionsOf(header, qs, r + post);
    ReadRecordsOf(header + q, rs, post);
  }

  lemma Regroup(h: Bytes, q: Bytes, r: Bytes, post: Bytes)
    ensures h + q + r + post == h + (q + r + post) == h + q + (r + post) == (h + q) + r + post
  {
  }

  lemma HeaderCounts(idFlags: Bytes, qd: nat, an: nat, counts: Bytes, body: Bytes)
    requires |idFlags| == 4 && |counts| == 4 && qd < 0x1_0000 && an < 0x1_0000
    ensures var m := idFlags + U16(qd) + U16(an) + counts + body;
      GetU16(m, 4) == qd && GetU16(m, 6) == an
  {
    var m := idFlags + U16(qd) + U16(an) + counts + body;
    U16RoundTrip(idFlags, qd, U16(an) + counts + body);
    assert m == idFlags + U16(qd) + (U16(an) + counts + body);
    U16RoundTrip(idFlags + U16(qd), an, counts + body);
    assert m == (idFlags + U16(qd)) + U16(an) + (counts + body);
  }

  // ---- A records ----

  /** parseAAnswers keeps the four-byte records of type 1, in order. */
  function AddressesIn(rs: seq<RR>): seq<Bytes> {
    if rs == [] then []
    else (if rs[0].typ == 1 && |rs[0].rdata| == 4 then [rs[0].rdata] else []) + AddressesIn(rs[1..])
  }

  lemma {:induction false} AddressesAppend(rs: seq<RR>, r: RR)
    ensures AddressesIn(rs + [r]) == AddressesIn(rs) + (if r.typ == 1 && |r.rdata| == 4 then [r.rdata] else [])
  {
    if rs == [] {
      assert rs + [r] == [r];
      assert AddressesIn([r][1..]) == [];
    } else {
      assert (rs + [r])[1..] == rs[1..] + [r];
      AddressesAppend(rs[1..], r);
    }
  }

  /** Only records of type 1 with four bytes of data count. */
  lemma {:induction false} AddressesAre(rs: seq<RR>, x: Bytes)
    ensures x in AddressesIn(rs) <==> exists r :: r in rs && r.typ == 1 && |r.rdata| == 4 && r.rdata == x
  {
    if rs != [] {
      AddressesAre(rs[1..], x);
      assert rs == [rs[0]] + rs[1..];
    }
  }

  method ParseAAnswers(m: Bytes) returns (r: Result<seq<Bytes>>)
    ensures r == AddressesOfMessage(m)
  {
    var records := IterAnswers(m);
    if records.Err? {
      return Err(records.error);
    }
    var ips: seq<Bytes> := [];
    for i := 0 to |records.value|
      invariant ips == AddressesIn(records.value[..i])
    {
      var rr := records.value[i];
      AddressesAppend(records.value[..i], rr);
      assert records.value[..i + 1] == records.value[..i] + [rr];
      if rr.typ == 1 && |rr.rdata| == 4 {
        ips := ips + [rr.rdata];
      }
    }
    assert records.value[..|records.value|] == records.value;
    return Ok(ips);
  }

  // ---- ipv4hint ----

  const IPV4_HINT := 4

  datatype Param = Param(key: nat, val: Bytes) {
    predicate Valid() {
      key < 0x1_0000 && |val| < 0x1_0000
    }

    function Wire(): Bytes
      requires Valid()
    {
      U16(key) + U16(|val|) + val
    }
  }

  type Params = ps: seq<Param> | forall i :: 0 <= i < |ps| ==> ps[i].Valid()

  function ParamsWire(ps: Params): Bytes {
    if ps == [] then [] else ps[0].Wire() + ParamsWire(ps[1..])
  }

  function Quads(v: Bytes): seq<Bytes> {
    if |v| < 4 then [] else [v[..4]] + Quads(v[4..])
  }

  /** Four bytes at a time, nothing left over. */
  lemma {:induction false} QuadsAre(v: Bytes)
    requires |v| % 4 == 0
    ensures Flatten(Quads(v)) == v && |Quads(v)| == |v| / 4 && forall i :: 0 <= i < |Quads(v)| ==> |Quads(v)[i]| == 4
  {
    if v != [] {
      QuadsAre(v[4..]);
      assert Quads(v)[0] == v[..4] && Quads(v)[1..] == Quads(v[4..]);
      assert v == v[..4] + v[4..];
    }
  }

  /** The addresses of the ipv4hint parameters from `off` on; a parameter that is cut ends the walk. */
  function HintsFrom(r: Bytes, off: nat): seq<Bytes>
    decreases |r| - off
  {
    if off + 4 > |r| then []
    else
      var key, ln := GetU16(r, off), GetU16(r, off + 2);
      if off + 4 + ln > |r| then []
      else
        (if key == IPV4_HINT && ln % 4 == 0 then Quads(r[off + 4..off + 4 + ln]) else []) + HintsFrom(r, off + 4 + ln)
  }

  function HintsOf(rdata: Bytes): seq<Bytes> {
    if |rdata| < 3 then []
    else match SkipName(rdata, 2)
      case Err(_) => []
      case Ok(off) => HintsFrom(rdata, off)
  }

  lemma {:induction false} QuadsAppend(a: Bytes, q: Bytes)
    requires |a| % 4 == 0 && |q| == 4
    ensures Quads(a + q) == Quads(a) + [q]
  {
    if |a| < 4 {
      assert a + q == q;
      assert q[..4] == q && Quads(q[4..]) == [];
    } else {
      assert (a + q)[..4] == a[..4] && (a + q)[4..] == a[4..] + q;
      QuadsAppend(a[4..], q);
    }
  }

  method CopyQuads(val: Bytes) returns (ips: seq<Bytes>)
    requires |val| % 4 == 0
    ensures ips == Quads(val)
  {
    ips := [];
    var i := 0;
    while i + 4 <= |val|
      invariant 0 <= i <= |val| && i % 4 == 0
      invariant ips == Quads(val[..i])
    {
      QuadsAppend(val[..i], val[i..i + 4]);
      assert val[..i + 4] == val[..i] + val[i..i + 4];
      ips := ips + [val[i..i + 4]];
      i := i + 4;
    }
    assert val[..i] == val;
  }

  /** One parameter, or the end of the walk. */
  lemma HintsStep(r: Bytes, off: nat)
    ensures off + 4 > |r| ==> HintsFrom(r, off) == []
    ensures off + 4 <= |r| ==>
      var ln := GetU16(r, off + 2); var end := off + 4 + ln;
      HintsFrom(r, off) ==
        if end > |r| then []
        else (if GetU16(r, off) == IPV4_HINT && ln % 4 == 0 then Quads(r[off + 4..end]) else []) + HintsFrom(r, end)
  {
    hide Quads, GetU16;
  }

  method IPv4HintsFromHTTPS(rdata: Bytes) returns (ips: seq<Bytes>)
    ensures ips == HintsOf(rdata)
  {
    hide HintsFrom, Quads, GetU16, SkipName;
    ips := [];
    if |rdata| < 3 {
      return;
    }
    var p := SkipNameLoop(rdata, 2);
    if p.Err? {
      return;
    }
    var off := p.value;
    ghost var whole := HintsFrom(rdata, off);
    assert [] + whole == whole;
    while off + 4 <= |rdata|
      invariant off <= |rdata|
      invariant whole == ips + HintsFrom(rdata, off)
      decreases |rdata| - off
    {
      HintsStep(rdata, off);
      var key, ln := GetU16(rdata, off), GetU16(rdata, off + 2);
      off := off + 4;
      if off + ln > |rdata| {
        assert ips + [] == ips;
        return;
      }
      var val := rdata[off..off + ln];
      off := off + ln;
      if key == IPV4_HINT && ln % 4 == 0 {
        var more := CopyQuads(val);
        Assoc(ips, more, HintsFrom(rdata, off));
        ips := ips + more;
      } else {
        assert [] + HintsFrom(rdata, off) == HintsFrom(rdata, off);
      }
    }
    HintsStep(rdata, off);
    assert ips + [] == ips;
  }

  function HintsIn(ps: seq<Param>): seq<Bytes> {
    if ps == [] then []
    else (if ps[0].key == 4 && |ps[0].val| % 4 == 0 then Quads(ps[0].val) else []) + HintsIn(ps[1..])
  }

  lemma ParamFields(pre: Bytes, p: Param, rest: Bytes)
    requires p.Valid()
    ensures var r := pre + p.Wire() + rest;
      && GetU16(r, |pre|) == p.key && GetU16(r, |pre| + 2) == |p.val|
      && r[|pre| + 4..|pre| + 4 + |p.val|] == p.val
  {
    hide GetU16, U16;
    var key, len := Two(p.key), Two(|p.val|);
    var r := pre + p.Wire() + rest;
    FourParts(pre, key, len, p.val, rest);
    U16RoundTrip(pre, p.key, len + p.val + rest);
    U16RoundTrip(pre + key, |p.val|, p.val + rest);
    Middle(pre + key + len, p.val, rest);
  }

  function Two(v: nat): (b: Bytes)
    requires v < 0x1_0000
    ensures |b| == 2 && b == U16(v)
  {
    U16(v)
  }

  lemma FourParts(pre: Bytes, a: Bytes, b: Bytes, c: Bytes, rest: Bytes)
    ensures var r := pre + (a + b + c) + rest;
      && r == pre + a + (b + c + rest) && r == (pre + a) + b + (c + rest) && r == (pre + a + b) + c + rest
  {
  }

  lemma {:induction false} HintsFromOf(pre: Bytes, ps: Params)
    ensures HintsFrom(pre + ParamsWire(ps), |pre|) == HintsIn(ps)
    decreases |ps|
  {
    hide Quads, Param.Wire, GetU16;
    var r := pre + ParamsWire(ps);
    if ps == [] {
      assert r == pre;
    } else {
      var p, rest := ps[0], ParamsWire(ps[1..]);
      ParamFields(pre, p, rest);
      ParamLength(p);
      Assoc(pre, p.Wire(), rest);
      HintsFromOf(pre + p.Wire(), ps[1..]);
    }
  }

  lemma ParamLength(p: Param)
    requires p.Valid()
    ensures |p.Wire()| == 4 + |p.val|
  {
  }

  /** The hints of a serialised service binding are those of its ipv4hint parameters, in order. */
  lemma HintsRoundTrip(priority: nat, target: Name, ps: Params)
    requires priority < 0x1_0000 && target.Valid()
    ensures HintsOf(U16(priority) + NameWire(target) + ParamsWire(ps)) == HintsIn(ps)
  {
    hide HintsFrom, HintsIn, ParamsWire, SkipName;
    SkipNameOf(U16(priority), target, ParamsWire(ps));
    HintsFromOf(U16(priority) + NameWire(target), ps);
    assert |NameWire(target)| > 0;
  }

  /** parseHTTPSIPv4Hints keeps the hints of the records of types 65 and 64, in order. */
  function HintsInRecords(rs: seq<RR>): seq<Bytes> {
    if rs == [] then []
    else (if rs[0].typ == 65 || rs[0].typ == 64 then HintsOf(rs[0].rdata) else []) + HintsInRecords(rs[1..])
  }

  function HintsOfMessage(m: Bytes): Result<seq<Bytes>> {
    match AnswersOf(m) case Err(e) => Err(e) case Ok(rs) => Ok(HintsInRecords(rs))
  }

  function AddressesOfMessage(m: Bytes): Result<seq<Bytes>> {
    match AnswersOf(m) case Err(e) => Err(e) case Ok(rs) => Ok(AddressesIn(rs))
  }

  lemma {:induction false} HintsAppend(rs: seq<RR>, r: RR)
    ensures HintsInRecords(rs + [r]) ==
      HintsInRecords(rs) + (if r.typ == 65 || r.typ == 64 then HintsOf(r.rdata) else [])
  {
    hide HintsOf;
    if rs == [] {
      assert rs + [r] == [r];
      assert HintsInRecords([r][1..]) == [];
    } else {
      assert (rs + [r])[1..] == rs[1..] + [r];
      HintsAppend(rs[1..], r);
      Assoc(if rs[0].typ == 65 || rs[0].typ == 64 then HintsOf(rs[0].rdata) else [], HintsInRecords(rs[1..]),
            if r.typ == 65 || r.typ == 64 then HintsOf(r.rdata) else []);
    }
  }

  method ParseHTTPSIPv4Hints(m: Bytes) returns (r: Result<seq<Bytes>>)
    ensures r == HintsOfMessage(m)
  {
    hide HintsOf, AnswersOf;
    var records := IterAnswers(m);
    if records.Err? {
      return Err(records.error);
    }
    var ips: seq<Bytes> := [];
    for i := 0 to |records.value|
      invariant ips == HintsInRecords(records.value[..i])
    {
      var rr := records.value[i];
      HintsAppend(records.value[..i], rr);
      assert records.value[..i + 1] == records.value[..i] + [rr];
      assert ips + [] == ips;
      if rr.typ != 65 && rr.typ != 64 {
        continue;
      }
      var more := IPv4HintsFromHTTPS(rr.rdata);
      ips := ips + more;
    }
    assert records.value[..|records.value|] == records.value;
    return Ok(ips);
  }

  /** A service binding, HTTPS or SVCB, as its owner publishes it. */
  datatype Binding = Binding(owner: Name, https: bool, ttl: Bytes, priority: nat, target: Name, params: Params) {
    predicate Valid() {
      && owner.Valid() && |ttl| == 4 && priority < 0x1_0000 && target.Valid()
      && |U16(priority) + NameWire(target) + ParamsWire(params)| < 0x1_0000
    }

    function AsRecord(): (r: Record)
      requires Valid()
      ensures r.Valid()
    {
      Record(owner, if https then 65 else 64, 1, ttl, U16(priority) + NameWire(target) + ParamsWire(params))
    }
  }

  /** Whatever fits its length fields can be published. */
  lemma Publishable(b: Binding, p: Param)
    requires forall l :: l in b.owner.labels || l in b.target.labels ==> 0 < |l| <= 63
    requires b.owner.end.Root? && b.target.end.Root? && |b.ttl| == 4 && b.priority < 65536
    ensures p.key < 65536 && |p.val| < 65536 ==> p.Valid()
    ensures b.owner.Valid() && b.target.Valid()
    ensures |U16(b.priority) + NameWire(b.target) + ParamsWire(b.params)| < 65536 ==> b.Valid()
  {
    assert forall i :: 0 <= i < |b.owner.labels| ==> b.owner.labels[i] in b.owner.labels;
    assert forall i :: 0 <= i < |b.target.labels| ==> b.target.labels[i] in b.target.labels;
  }

  type Bindings = bs: seq<Binding> | forall i :: 0 <= i < |bs| ==> bs[i].Valid()

  function BindingRecords(bs: Bindings): (rs: Records)
    ensures |rs| == |bs|
  {
    if bs == [] then [] else [bs[0].AsRecord()] + BindingRecords(bs[1..])
  }

  function HintsPublished(bs: seq<Binding>): seq<Bytes> {
    if bs == [] then [] else HintsIn(bs[0].params) + HintsPublished(bs[1..])
  }

  lemma {:induction false} BindingsRoundTrip(bs: Bindings)
    ensures HintsInRecords(Contents(BindingRecords(bs))) == HintsPublished(bs)
    decreases |bs|
  {
    hide HintsOf, HintsIn, NameWire, ParamsWire;
    if bs != [] {
      HintsRoundTrip(bs[0].priority, bs[0].target, bs[0].params);
      BindingsRoundTrip(bs[1..]);
      var rs := BindingRecords(bs);
      assert rs[0] == bs[0].AsRecord() && rs[1..] == BindingRecords(bs[1..]);
      assert Contents(rs)[0] == RR(rs[0].typ, rs[0].rdata) && Contents(rs)[1..] == Contents(rs[1..]);
    }
  }

  /** The same for address records. */
  datatype Address = Address(owner: Name, ttl: Bytes, ip: Bytes) {
    predicate Valid() {
      owner.Valid() && |ttl| == 4 && |ip| == 4
    }

    function AsRecord(): (r: Record)
      requires Valid()
      ensures r.Valid()
    {
      Record(owner, 1, 1, ttl, ip)
    }
  }

  lemma Addressable(a: Address)
    ensures a.owner.Valid() && |a.ttl| == |a.ip| == 4 ==> a.Valid()
  {
  }

  type Addresses = hs: seq<Address> | forall i :: 0 <= i < |hs| ==> hs[i].Valid()

  function AddressRecords(hosts: Addresses): (rs: Records)
    ensures |rs| == |hosts|
  {
    if hosts == [] then [] else [hosts[0].AsRecord()] + AddressRecords(hosts[1..])
  }

  function Published(hosts: seq<Address>): (r: seq<Bytes>)
    ensures |r| == |hosts|
  {
    seq(|hosts|, i requires 0 <= i < |hosts| => hosts[i].ip)
  }

  lemma {:induction false} AddressesRoundTrip(hosts: Addresses)
    ensures AddressesIn(Contents(AddressRecords(hosts))) == Published(hosts)
    decreases |hosts|
  {
    if hosts != [] {
      AddressesRoundTrip(hosts[1..]);
      var rs := AddressRecords(hosts);
      assert rs[0] == hosts[0].AsRecord() && rs[1..] == AddressRecords(hosts[1..]);
      assert Contents(rs)[0] == RR(rs[0].typ, rs[0].rdata) && Contents(rs)[1..] == Contents(rs[1..]);
      assert Published(hosts) == [hosts[0].ip] + Published(hosts[1..]);
    }
  }

  // ---- merging ----

  /** net.IP.To4. */
  function To4(ip: Bytes): (r: Option<Bytes>)
    ensures r.Some? ==> |r.value| == 4
  {
    if |ip| == 4 then Some(ip)
    else if |ip| == 16 && ip[..12] == V4_IN_V6 then Some(ip[12..])
    else None
  }

  /** Four bytes are an IPv4 address, and so are the last four of sixteen behind ten zeros and two bytes of 255. */
  lemma To4Means(ip: Bytes, v4: Bytes)
    ensures To4(ip) == Some(v4) <==>
      && |v4| == 4
      && (ip == v4 || ip == [0, 0, 0, 0, 0, 0, 0, 0, 0, 0, 255, 255] + v4)
  {
    if |ip| == 16 {
      assert ip == ip[..12] + ip[12..];
      assert ([0, 0, 0, 0, 0, 0, 0, 0, 0, 0, 255, 255] + v4)[12..] == v4;
      assert ([0, 0, 0, 0, 0, 0, 0, 0, 0, 0, 255, 255] + v4)[..12] == V4_IN_V6;
    }
  }

  function Fours(ips: seq<Bytes>): seq<Bytes> {
    if ips == [] then []
    else Fours(ips[..|ips| - 1]) + (if To4(ips[|ips| - 1]).Some? then [To4(ips[|ips| - 1]).value] else [])
  }

  /** The elements in order of first occurrence. */
  function Firsts(s: seq<Bytes>): (r: seq<Bytes>)
    ensures forall x :: x in r <==> x in s
  {
    if s == [] then []
    else
      var init, last := s[..|s| - 1], s[|s| - 1];
      assert forall x :: x in s <==> x in init || x == last;
      if last in init then Firsts(init) else Firsts(init) + [last]
  }

  ghost predicate NoDuplicates(s: seq<Bytes>) {
    forall i, j :: 0 <= i < j < |s| ==> s[i] != s[j]
  }

  function FirstAt(s: seq<Bytes>, x: Bytes): (i: nat)
    requires x in s
    ensures i < |s| && s[i] == x && forall j :: 0 <= j < i ==> s[j] != x
  {
    if s[0] == x then 0 else 1 + FirstAt(s[1..], x)
  }

  /** What was met first is listed first, so that nothing is listed twice. */
  lemma FirstsDistinct(s: seq<Bytes>)
    ensures NoDuplicates(Firsts(s)) && forall i, j :: 0 <= i < j < |Firsts(s)| ==> Firsts(s)[i] != Firsts(s)[j]
  {
    FirstsOrdered(s);
  }

  lemma {:induction false} FirstsOrdered(s: seq<Bytes>)
    ensures Ordered(Firsts(s), s)
  {
    hide FirstAt;
    if s != [] {
      var init, last := s[..|s| - 1], s[|s| - 1];
      FirstsOrdered(init);
      hide Ordered;
      if last in init {
        OrderedLonger(Firsts(init), init, last);
      } else {
        OrderedMore(Firsts(init), init, last);
      }
      assert init + [last] == s;
    }
  }

  /** The elements of `r` are listed as they first occur in `s`. */
  ghost predicate Ordered(r: seq<Bytes>, s: seq<Bytes>) {
    && (forall x :: x in r ==> x in s)
    && forall i, j :: 0 <= i < j < |r| ==> FirstAt(s, r[i]) < FirstAt(s, r[j])
  }

  lemma FirstAtSame(s: seq<Bytes>, last: Bytes, x: Bytes)
    requires x in s
    ensures x in s + [last] && FirstAt(s + [last], x) == FirstAt(s, x)
  {
    var t := s + [last];
    assert t[FirstAt(s, x)] == x;
    assert forall j :: 0 <= j < FirstAt(s, x) ==> t[j] == s[j] != x;
  }

  lemma OrderedLonger(r: seq<Bytes>, s: seq<Bytes>, last: Bytes)
    requires Ordered(r, s)
    ensures Ordered(r, s + [last])
  {
    hide FirstAt;
    forall x | x in r
      ensures x in s + [last] && FirstAt(s + [last], x) == FirstAt(s, x)
    {
      FirstAtSame(s, last, x);
    }
  }

  lemma OrderedMore(r: seq<Bytes>, s: seq<Bytes>, last: Bytes)
    requires Ordered(r, s) && last !in s
    ensures Ordered(r + [last], s + [last])
  {
    hide FirstAt;
    OrderedLonger(r, s, last);
    var t, q := s + [last], r + [last];
    assert last in t && FirstAt(t, last) == |s| by { assert t[|s|] == last; }
    forall i, j | 0 <= i < j < |q|
      ensures q[i] in t && q[j] in t && FirstAt(t, q[i]) < FirstAt(t, q[j])
    {
      assert q[i] == r[i] && r[i] in r;
      FirstAtSame(s, last, r[i]);
      if j < |r| {
        assert q[j] == r[j] && r[j] in r;
      }
    }
  }

  lemma FoursAppend(ips: seq<Bytes>, ip: Bytes)
    ensures Fours(ips + [ip]) == Fours(ips) + (if To4(ip).Some? then [To4(ip).value] else [])
  {
    assert (ips + [ip])[..|ips|] == ips;
  }

  lemma FirstsAppend(s: seq<Bytes>, x: Bytes)
    ensures Firsts(s + [x]) == if x in s then Firsts(s) else Firsts(s) + [x]
  {
    assert (s + [x])[..|s|] == s;
  }

  lemma NothingYet()
    ensures Fours([]) == [] && Firsts([]) == []
  {
  }

  /** Hints before A records, each IPv4 address once, in order of first occurrence. */
  method MergeIPv4(hint: seq<Bytes>, a: seq<Bytes>) returns (out: seq<Bytes>)
    ensures out == Firsts(Fours(hint + a))
  {
    hide Firsts, Fours, To4;
    NothingYet();
    out := [];
    var seen: set<Bytes> := {};
    var all := hint + a;
    for i := 0 to |all|
      invariant out == Firsts(Fours(all[..i]))
      invariant forall x :: x in seen <==> x in Fours(all[..i])
    {
      FoursAppend(all[..i], all[i]);
      assert all[..i + 1] == all[..i] + [all[i]];
      ghost var met := Fours(all[..i]);
      assert met + [] == met;
      var v4 := To4(all[i]);
      if v4.None? {
        continue;
      }
      FirstsAppend(met, v4.value);
      if v4.value in seen {
        continue;
      }
      seen := seen + {v4.value};
      out := out + [v4.value];
    }
    assert all[..|all|] == all;
  }

  lemma {:induction false} FoursWhole(ips: seq<Bytes>)
    requires forall i :: 0 <= i < |ips| ==> |ips[i]| == 4
    ensures Fours(ips) == ips
  {
    if ips != [] {
      FoursWhole(ips[..|ips| - 1]);
    }
  }

  lemma {:induction false} QuadsAreFour(v: Bytes)
    ensures forall i :: 0 <= i < |Quads(v)| ==> |Quads(v)[i]| == 4
  {
    if |v| >= 4 {
      QuadsAreFour(v[4..]);
    }
  }

  lemma {:induction false} HintsAreFour(ps: seq<Param>)
    ensures forall i :: 0 <= i < |HintsIn(ps)| ==> |HintsIn(ps)[i]| == 4
  {
    hide Quads;
    if ps != [] {
      QuadsAreFour(ps[0].val);
      HintsAreFour(ps[1..]);
    }
  }

  lemma {:induction false} PublishedAreFour(bs: seq<Binding>)
    ensures forall i :: 0 <= i < |HintsPublished(bs)| ==> |HintsPublished(bs)[i]| == 4
  {
    hide HintsIn;
    if bs != [] {
      HintsAreFour(bs[0].params);
      PublishedAreFour(bs[1..]);
    }
  }

  // ---- the two lookups together ----

  datatype LookupError = Parse(error: DnsError) | Network | Cancelled | NoAddresses

  datatype Answer = Ips(ips: seq<Bytes>) | NoAnswer(why: LookupError)

  /** How the short wait for the hints ends. */
  datatype Wait = Arrived | TimedOut | CtxDone

  function IpsIn(a: Answer): seq<Bytes> {
    if a.Ips? then a.ips else []
  }

  function Merged(hint: seq<Bytes>, a: seq<Bytes>): seq<Bytes> {
    Firsts(Fours(hint + a))
  }

  function AnswerFrom(r: Result<seq<Bytes>>): Answer {
    match r case Err(e) => NoAnswer(Parse(e)) case Ok(ips) => Ips(ips)
  }

  /** lookupAAndHints. `arrives` says that the A answer comes before the context ends, `wait` how the short wait
      for the hints ends, `late` that they come before the context ends when they are waited for again. */
  method LookupAAndHints(https: Answer, a: Answer, arrives: bool, wait: Wait, late: bool) returns (r: Answer)
    ensures r == LookupOf(https, a, arrives, wait, late)
  {
    hide Firsts, Fours;
    if !arrives {
      return NoAnswer(Cancelled);
    }
    if wait.CtxDone? && a.NoAnswer? {
      return NoAnswer(Cancelled);
    }
    var httpsGot := wait.Arrived?;
    var out := MergeIPv4(if httpsGot then IpsIn(https) else [], IpsIn(a));
    if |out| > 0 {
      return Ips(out);
    }
    if !httpsGot {
      if !late {
        return if a.NoAnswer? then a else NoAnswer(Cancelled);
      }
      out := MergeIPv4(IpsIn(https), IpsIn(a));
      if |out| > 0 {
        return Ips(out);
      }
    }
    if a.NoAnswer? {
      return a;
    }
    if https.NoAnswer? {
      return https;
    }
    return NoAnswer(NoAddresses);
  }

  function LookupOf(https: Answer, a: Answer, arrives: bool, wait: Wait, late: bool): Answer {
    var first := Merged(if wait.Arrived? then IpsIn(https) else [], IpsIn(a));
    var second := Merged(IpsIn(https), IpsIn(a));
    if !arrives || (wait.CtxDone? && a.NoAnswer?) then NoAnswer(Cancelled)
    else if first != [] then Ips(first)
    else if !wait.Arrived? && !late then if a.NoAnswer? then a else NoAnswer(Cancelled)
    else if second != [] then Ips(second)
    else if a.NoAnswer? then a
    else if https.NoAnswer? then https
    else NoAnswer(NoAddresses)
  }

  lemma {:induction false} FoursConcat(a: seq<Bytes>, b: seq<Bytes>)
    ensures Fours(a + b) == Fours(a) + Fours(b)
  {
    hide To4;
    if b == [] {
      assert a + b == a;
    } else {
      var n := |b| - 1;
      FoursConcat(a, b[..n]);
      assert (a + b)[..|a + b| - 1] == a + b[..n];
      Assoc(Fours(a), Fours(b[..n]), if To4(b[n]).Some? then [To4(b[n]).value] else []);
    }
  }

  lemma {:induction false} FirstsGrow(a: seq<Bytes>, b: seq<Bytes>)
    ensures Firsts(a) <= Firsts(a + b)
  {
    if b == [] {
      assert a + b == a;
    } else {
      FirstsGrow(a, b[..|b| - 1]);
      assert (a + b)[..|a + b| - 1] == a + b[..|b| - 1];
    }
  }

  /** The hints are there to be merged. */
  predicate HintsCome(a: Answer, wait: Wait, late: bool) {
    wait.Arrived? || (late && !(wait.CtxDone? && a.NoAnswer?))
  }

  lemma MergedHas(hint: seq<Bytes>, a: seq<Bytes>)
    ensures Firsts(Fours(hint)) <= Merged(hint, a) && NoDuplicates(Merged(hint, a))
    ensures forall x :: x in Merged(hint, a) <==> x in Fours(hint) || x in Fours(a)
    ensures Merged(hint, a) == [] <==> Fours(hint) == [] && Fours(a) == []
  {
    hide Fours;
    FoursConcat(hint, a);
    FirstsGrow(Fours(hint), Fours(a));
    FirstsDistinct(Fours(hint + a));
    FirstsEmpty(Fours(hint + a));
  }

  lemma FirstsEmpty(s: seq<Bytes>)
    ensures Firsts(s) == [] <==> s == []
  {
    if s != [] {
      assert s[0] in Firsts(s);
    }
  }

  /** However the waits end: a list is returned exactly when the A answer has come and it or hints that came hold an
      IPv4 address; the list then holds every address of the A answer, each address once, nothing but addresses
      answered, and hints that came in time first. A slow or failed hint lookup never costs an A address. */
  lemma LookupIsSafe(https: Answer, a: Answer, arrives: bool, wait: Wait, late: bool)
    ensures var r := LookupOf(https, a, arrives, wait, late);
      && (r.Ips? <==> arrives && (Fours(IpsIn(a)) != [] || (HintsCome(a, wait, late) && Fours(IpsIn(https)) != [])))
      && (r.Ips? ==> r.ips != [] && forall i, j :: 0 <= i < j < |r.ips| ==> r.ips[i] != r.ips[j])
      && (r.Ips? ==> forall x :: x in Fours(IpsIn(a)) ==> x in r.ips)
      && (r.Ips? ==> forall x :: x in r.ips ==> x in Fours(IpsIn(https)) || x in Fours(IpsIn(a)))
      && (r.Ips? && wait.Arrived? ==> Firsts(Fours(IpsIn(https))) <= r.ips)
      && (r.NoAnswer? && !HintsCome(a, wait, late) ==>
        r == if arrives && a.NoAnswer? && !wait.CtxDone? then a else NoAnswer(Cancelled))
      && (r.NoAnswer? && arrives && HintsCome(a, wait, late) && !(wait.CtxDone? && a.NoAnswer?) ==>
        r == if a.NoAnswer? then a else if https.NoAnswer? then https else NoAnswer(NoAddresses))
  {
    hide Fours, Firsts, Merged;
    MergedHas(IpsIn(https), IpsIn(a));
    MergedHas([], IpsIn(a));
    assert Fours([]) == [] by { NothingYet(); }
  }

  /** From two serialised responses to the list dialled: what was published, hints first, each address once. */
  lemma PublishedIsDialled(f: Bytes, c: Bytes, q: Questions, bs: Bindings, g: Bytes, d: Bytes, p: Questions,
                           hosts: Addresses)
    requires |f| == |c| == |g| == |d| == 4 && |q| < 0x1_0000 && |p| < 0x1_0000
    requires |bs| < 0x1_0000 && |hosts| < 0x1_0000
    ensures var https := HintsOfMessage(MessageWire(f, c, q, BindingRecords(bs)));
      var a := AddressesOfMessage(MessageWire(g, d, p, AddressRecords(hosts)));
      var all := Firsts(HintsPublished(bs) + Published(hosts));
      LookupOf(AnswerFrom(https), AnswerFrom(a), true, Arrived, false) ==
        if all == [] then NoAnswer(NoAddresses) else Ips(all)
  {
    hide MessageWire, AnswersOf, HintsInRecords, AddressesIn, Contents, BindingRecords, AddressRecords;
    hide HintsPublished, Firsts, Fours;
    var https, a := MessageWire(f, c, q, BindingRecords(bs)), MessageWire(g, d, p, AddressRecords(hosts));
    AnswersRoundTrip(f, c, q, BindingRecords(bs), []);
    AnswersRoundTrip(g, d, p, AddressRecords(hosts), []);
    assert https + [] == https && a + [] == a;
    BindingsRoundTrip(bs);
    AddressesRoundTrip(hosts);
    PublishedAreFour(bs);
    FoursWhole(HintsPublished(bs) + Published(hosts));
  }

  // ---- queries ----

  const DOT: byte := 46

  function Filled(l: Bytes): (r: seq<Bytes>)
    ensures forall x :: x in r <==> x == l && l != []
  {
    if l == [] then [] else [l]
  }

  function NonEmpty(ls: seq<Bytes>): (r: seq<Bytes>)
    ensures forall l :: l in r <==> l in ls && l != []
  {
    if ls == [] then [] else Filled(ls[0]) + NonEmpty(ls[1..])
  }

  /** The labels a query for this host name carries. */
  function QueryLabels(name: Bytes): seq<Bytes> {
    NonEmpty(SplitOn(TrimLast(name, DOT), DOT))
  }

  /** Labels joined by dots. */
  function Dotted(ls: seq<Bytes>): Bytes
    requires ls != []
  {
    if |ls| == 1 then ls[0] else ls[0] + ([46] + Dotted(ls[1..]))
  }

  predicate DotFree(ls: seq<Bytes>) {
    forall i :: 0 <= i < |ls| ==> ls[i] != [] && 46 !in ls[i]
  }

  lemma {:induction false} SplitPlain(l: Bytes, rest: Bytes)
    requires 46 !in l
    ensures SplitOn(l, 46) == [l] && SplitOn(l + ([46] + rest), 46) == [l] + SplitOn(rest, 46)
  {
    var s := l + ([46] + rest);
    if l == [] {
      assert s[0] == 46 && s[1..] == rest;
    } else {
      SplitPlain(l[1..], rest);
      assert s[1..] == l[1..] + ([46] + rest);
      assert l == [l[0]] + l[1..];
      assert ([l[1..]] + SplitOn(rest, 46))[1..] == SplitOn(rest, 46);
    }
  }

  lemma {:induction false} SplitDotted(ls: seq<Bytes>)
    requires ls != [] && DotFree(ls)
    ensures SplitOn(Dotted(ls), 46) == ls && NonEmpty(ls) == ls && Dotted(ls) != []
    ensures Dotted(ls)[|Dotted(ls)| - 1] != 46
  {
    hide SplitOn;
    assert ls == [ls[0]] + ls[1..];
    if |ls| == 1 {
      SplitPlain(ls[0], []);
    } else {
      SplitPlain(ls[0], Dotted(ls[1..]));
      SplitDotted(ls[1..]);
      assert Dotted(ls)[|Dotted(ls)| - 1] == Dotted(ls[1..])[|Dotted(ls[1..])| - 1];
    }
  }

  /** The labels of a host name are those that dots join to it, with or without a dot at the end. */
  lemma QueryLabelsJoin(ls: seq<Bytes>)
    requires ls != [] && DotFree(ls)
    ensures QueryLabels(Dotted(ls)) == ls && QueryLabels(Dotted(ls) + [46]) == ls
  {
    hide SplitOn, NonEmpty;
    SplitDotted(ls);
    assert (Dotted(ls) + [46])[..|Dotted(ls)|] == Dotted(ls);
  }

  lemma {:induction false} LabelsWireAppend(ls: seq<Bytes>, l: Bytes)
    requires |l| < 256 && forall i :: 0 <= i < |ls| ==> |ls[i]| < 256
    ensures LabelsWire(ls + [l]) == LabelsWire(ls) + ([|l|] + l)
  {
    if ls == [] {
      assert ls + [l] == [l];
      assert LabelsWire([l][1..]) == [];
    } else {
      assert (ls + [l])[1..] == ls[1..] + [l];
      LabelsWireAppend(ls[1..], l);
      Assoc([|ls[0]|] + ls[0], LabelsWire(ls[1..]), [|l|] + l);
    }
  }

  lemma {:induction false} NonEmptyAppend(ls: seq<Bytes>, l: Bytes)
    ensures NonEmpty(ls + [l]) == NonEmpty(ls) + Filled(l)
  {
    hide Filled;
    if ls == [] {
      assert ls + [l] == [l];
      assert NonEmpty([l][1..]) == [];
      assert NonEmpty([l]) == Filled(l) + [];
    } else {
      assert (ls + [l])[1..] == ls[1..] + [l];
      NonEmptyAppend(ls[1..], l);
      Assoc(Filled(ls[0]), NonEmpty(ls[1..]), Filled(l));
    }
  }

  predicate LabelsFit(ls: seq<Bytes>) {
    forall i :: 0 <= i < |ls| ==> 0 < |ls[i]| <= 63
  }

  /** The labels of a query, appended one by one; None when one is too long. */
  method EncodeLabels(head: Bytes, labels: seq<Bytes>) returns (r: Option<Bytes>)
    ensures r.Some? <==> LabelsFit(NonEmpty(labels))
    ensures r.Some? ==> r.value == head + LabelsWire(NonEmpty(labels))
  {
    hide NonEmpty, LabelsWire;
    var buf := head;
    ghost var done: seq<Bytes> := [];
    NoLabels();
    assert head + [] == head;
    for i := 0 to |labels|
      invariant done == NonEmpty(labels[..i]) && LabelsFit(done)
      invariant buf == head + LabelsWire(done)
    {
      var lab := labels[i];
      NonEmptyAppend(labels[..i], lab);
      assert labels[..i + 1] == labels[..i] + [lab];
      assert done + [] == done;
      if |lab| == 0 {
        continue;
      }
      if |lab| > MAX_LABEL {
        assert lab in NonEmpty(labels);
        return None;
      }
      LabelsWireAppend(done, lab);
      Assoc(head, LabelsWire(done), [|lab|] + lab);
      done := done + [lab];
      buf := buf + ([|lab|] + lab);
    }
    assert labels[..|labels|] == labels;
    return Some(buf);
  }

  lemma NoLabels()
    ensures NonEmpty([]) == [] && LabelsWire([]) == []
  {
  }

  /** A query is one question and no records; it is refused exactly when a label is too long. */
  method EncodeQuery(id: nat, name: Bytes, qtype: nat) returns (r: Option<Bytes>)
    requires id < 0x1_0000 && qtype < 0x1_0000
    ensures r.Some? <==> LabelsFit(QueryLabels(name))
    ensures r.Some? ==> r.value == MessageWire(U16(id) + U16(0x100), [0, 0, 0, 0],
      [Question(Name(QueryLabels(name), Root), qtype, 1)], [])
    ensures r.Some? ==> ServerQuery(r.value) == Some(Asked(id, QueryLabels(name), qtype))
  {
    hide ServerQuery, NonEmpty, LabelsWire, SplitOn, TrimLast, MessageWire, QuestionsWire;
    var head := U16(id) + U16(0x100) + U16(1) + [0, 0, 0, 0, 0, 0];
    r := EncodeLabels(head, SplitOn(TrimLast(name, DOT), DOT));
    if r.Some? {
      var buf := r.value + ([0] + U16(qtype) + [0, 1]);
      QueryWire(id, QueryLabels(name), qtype, buf);
      QueryUnderstood(id, QueryLabels(name), qtype, buf);
      r := Some(buf);
    }
  }

  lemma QueryWire(id: nat, ls: seq<Bytes>, qtype: nat, buf: Bytes)
    requires id < 0x1_0000 && qtype < 0x1_0000 && LabelsFit(ls)
    requires buf == U16(id) + U16(0x100) + U16(1) + [0, 0, 0, 0, 0, 0] + LabelsWire(ls) + ([0] + U16(qtype) + [0, 1])
    ensures buf == MessageWire(U16(id) + U16(0x100), [0, 0, 0, 0], [Question(Name(ls, Root), qtype, 1)], [])
  {
    hide LabelsWire;
    var q := Question(Name(ls, Root), qtype, 1);
    assert QuestionsWire([q]) == QuestionWire(q) + QuestionsWire([q][1..]);
    assert QuestionsWire([q][1..]) == [] && RecordsWire([]) == [];
    assert U16(0) == [0, 0];
    assert QuestionWire(q) == LabelsWire(ls) + ([0] + U16(qtype) + [0, 1]);
  }

  /** The labels on the wire from `off` to the root, and where they end; None when they are cut or compressed. */
  function ReadLabels(m: Bytes, off: nat): Option<(seq<Bytes>, nat)>
    decreases |m| - off
  {
    if off >= |m| then None
    else if m[off] == 0 then Some(([], off + 1))
    else if m[off] > 63 || off + 1 + m[off] > |m| then None
    else match ReadLabels(m, off + 1 + m[off])
      case None => None
      case Some((ls, p)) => Some(([m[off + 1..off + 1 + m[off]]] + ls, p))
  }

  lemma ReadLabelsStep(m: Bytes, off: nat)
    requires off < |m| && 0 < m[off] <= MAX_LABEL && off + 1 + m[off] <= |m|
    ensures var end := off + 1 + m[off];
      ReadLabels(m, off) ==
        match ReadLabels(m, end) case None => None case Some((ls, p)) => Some(([m[off + 1..end]] + ls, p))
  {
  }

  lemma ReadLabelsEnd(m: Bytes, off: nat)
    requires off < |m| && m[off] == 0
    ensures ReadLabels(m, off) == Some(([], off + 1))
  {
  }

  /** One label, then whatever comes after it. */
  lemma ReadLabel(pre: Bytes, l: Bytes, rest: Bytes)
    requires 0 < |l| <= MAX_LABEL
    ensures var m, next := pre + ([|l|] + l) + rest, |pre| + 1 + |l|;
      ReadLabels(m, |pre|) == match ReadLabels(m, next) case None => None case Some((ls, p)) => Some(([l] + ls, p))
  {
    hide ReadLabels;
    var m := pre + ([|l|] + l) + rest;
    assert m == (pre + [|l|]) + l + rest;
    Middle(pre + [|l|], l, rest);
    assert m[|pre|] == (pre + [|l|])[|pre|];
    ReadLabelsStep(m, |pre|);
  }

  /** A server that reads the labels of a query back gets the non-empty labels of the host name. */
  lemma {:induction false} LabelsRoundTrip(pre: Bytes, ls: seq<Bytes>, post: Bytes)
    requires LabelsFit(ls)
    ensures ReadLabels(pre + (LabelsWire(ls) + [0]) + post, |pre|) == Some((ls, |pre| + |LabelsWire(ls)| + 1))
    decreases |ls|
  {
    hide ReadLabels;
    var m := pre + (LabelsWire(ls) + [0]) + post;
    if ls == [] {
      assert m[|pre|] == 0;
      ReadLabelsEnd(m, |pre|);
    } else {
      var l, more := ls[0], LabelsWire(ls[1..]);
      var head := [|l|] + l;
      ReadLabel(pre, l, more + [0] + post);
      LabelsRoundTrip(pre + head, ls[1..], post);
      OneLabel(pre, head, more, post);
      assert [l] + ls[1..] == ls;
    }
  }

  lemma OneLabel(pre: Bytes, head: Bytes, more: Bytes, post: Bytes)
    ensures pre + (head + more + [0]) + post == pre + head + (more + [0] + post) == (pre + head) + (more + [0]) + post
  {
  }

  datatype Query = Asked(id: nat, labels: seq<Bytes>, qtype: nat)

  /** A query as a server written from the standard reads it: an identifier, recursion desired and nothing else, one
      question and no records; its labels, its type, the class of the Internet. */
  function ServerQuery(b: Bytes): Option<Query> {
    if |b| < 12 || b[2..12] != [1, 0, 0, 1, 0, 0, 0, 0, 0, 0] then None
    else match ReadLabels(b, 12)
      case None => None
      case Some((ls, p)) =>
        if |b| != p + 4 || b[p + 2] != 0 || b[p + 3] != 1 then None
        else Some(Asked(256 * b[0] as int + b[1], ls, 256 * b[p] as int + b[p + 1]))
  }

  lemma QueryUnderstood(id: nat, ls: seq<Bytes>, qtype: nat, buf: Bytes)
    requires id < 0x1_0000 && qtype < 0x1_0000 && LabelsFit(ls)
    requires buf == U16(id) + U16(0x100) + U16(1) + [0, 0, 0, 0, 0, 0] + LabelsWire(ls) + ([0] + U16(qtype) + [0, 1])
    ensures ServerQuery(buf) == Some(Asked(id, ls, qtype))
  {
    hide ReadLabels, LabelsWire;
    var head := [id / 256, id % 256, 1, 0, 0, 1, 0, 0, 0, 0, 0, 0];
    var tail := [qtype / 256, qtype % 256, 0, 1];
    assert buf == head + (LabelsWire(ls) + [0]) + tail;
    LabelsRoundTrip(head, ls, tail);
    var p := 12 + |LabelsWire(ls)| + 1;
    assert buf[2..12] == head[2..];
    assert |buf| == p + 4;
    assert forall i :: 0 <= i < 4 ==> buf[p + i] == tail[i];
    assert buf[p + 0] == tail[0];
  }
}
