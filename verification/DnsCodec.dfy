/** The DNS wire format: the query builder, and the parser that looks for the first A record of a response. */
module DnsCodec {
  import opened Common

  type Bytes = seq<byte>
  type u16 = x: int | 0 <= x < 0x1_0000

  const DOT: byte := 46

  datatype Error = TooShort | ErrorCode(rcode: int) | NoAnswers | NoARecord

  datatype Result = Ok(ip: Bytes) | Err(error: Error)

  // ---- Host names ----

  /** The pieces of a host name between its dots; the empty name has one empty piece. */
  function SplitDots(s: Bytes): (labels: seq<Bytes>)
    ensures |labels| > 0
  {
    if s == [] then [[]]
    else
      var rest := SplitDots(s[1..]);
      if s[0] == DOT then [[]] + rest else [[s[0]] + rest[0]] + rest[1..]
  }

  function JoinDots(labels: seq<Bytes>): Bytes
    requires |labels| > 0
  {
    if |labels| == 1 then labels[0] else labels[0] + [DOT] + JoinDots(labels[1..])
  }

  /** Splitting loses nothing, and leaves no dot inside a label. */
  lemma {:induction false} SplitJoin(s: Bytes)
    ensures JoinDots(SplitDots(s)) == s
    ensures forall i :: 0 <= i < |SplitDots(s)| ==> DOT !in SplitDots(s)[i]
    decreases |s|
  {
    if s == [] {
    } else {
      SplitJoin(s[1..]);
      var rest, all := SplitDots(s[1..]), SplitDots(s);
      assert s == [s[0]] + s[1..];
      if s[0] == DOT {
        assert all[0] == [] && all[1..] == rest;
        assert JoinDots(all) == [] + [DOT] + JoinDots(rest);
      } else {
        JoinPrefix([s[0]], rest);
      }
    }
  }

  lemma JoinPrefix(p: Bytes, labels: seq<Bytes>)
    requires |labels| > 0
    ensures JoinDots([p + labels[0]] + labels[1..]) == p + JoinDots(labels)
  {
    var joined, rest := [p + labels[0]] + labels[1..], labels[1..];
    assert joined[1..] == rest;
    if rest != [] {
      Regroup(p, labels[0], [DOT], JoinDots(rest));
    }
  }

  lemma Regroup(a: Bytes, b: Bytes, c: Bytes, d: Bytes)
    ensures a + b + c + d == a + (b + c + d)
  {
  }

  // ---- Encodings ----

  /** A length byte (the length modulo 256) before each label. */
  function Labels(labels: seq<Bytes>): Bytes {
    if labels == [] then [] else [|labels[0]| % 256] + labels[0] + Labels(labels[1..])
  }

  function Question(labels: seq<Bytes>): Bytes {
    Labels(labels) + [0] + [0, 1, 0, 1]
  }

  function U16(n: u16): (b: Bytes)
    ensures |b| == 2
  {
    [n / 256, n % 256]
  }

  function U32(n: u32): (b: Bytes)
    ensures |b| == 4
  {
    U16(n / 0x1_0000) + U16(n % 0x1_0000)
  }

  /** A name is one compression pointer, plain labels, or labels that end in a pointer (RFC 1035, section 4.1.4). */
  datatype Name =
    | Pointer(hi: byte, lo: byte)
    | Plain(labels: seq<Bytes>)
    | Mixed(labels: seq<Bytes>, hi: byte, lo: byte)

  datatype Answer = Answer(name: Name, rtype: u16, rclass: u16, ttl: u32, rdata: Bytes)

  function NameBytes(n: Name): Bytes {
    match n
    case Pointer(hi, lo) => [hi, lo]
    case Plain(labels) => Labels(labels) + [0]
    case Mixed(labels, hi, lo) => Labels(labels) + [hi, lo]
  }

  function FixedBytes(a: Answer): (b: Bytes)
    requires |a.rdata| < 0x1_0000
    ensures |b| == 10
  {
    U16(a.rtype) + U16(a.rclass) + U32(a.ttl) + U16(|a.rdata|)
  }

  function AnswerBytes(a: Answer): Bytes
    requires |a.rdata| < 0x1_0000
  {
    NameBytes(a.name) + FixedBytes(a) + a.rdata
  }

  ghost predicate LabelsFit(labels: seq<Bytes>, lo: nat, hi: nat) {
    forall i :: 0 <= i < |labels| ==> lo <= |labels[i]| <= hi
  }

  /** A name as section 4.1.4 of RFC 1035 allows it. */
  ghost predicate LegalName(n: Name) {
    match n
    case Pointer(hi, _) => hi >= 192
    case Plain(labels) => LabelsFit(labels, 1, 63)
    case Mixed(labels, hi, _) => labels != [] && LabelsFit(labels, 1, 63) && hi >= 192
  }

  ghost predicate WellFormed(a: Answer) {
    LegalName(a.name) && !a.name.Mixed? && |a.rdata| < 0x1_0000
  }

  ghost predicate AllWellFormed(answers: seq<Answer>) {
    forall i :: 0 <= i < |answers| ==> WellFormed(answers[i])
  }

  ghost function AnswersBytes(answers: seq<Answer>): Bytes
    requires AllWellFormed(answers)
  {
    if answers == [] then [] else AnswerBytes(answers[0]) + AnswersBytes(answers[1..])
  }

  predicate IsA(a: Answer) {
    a.rtype == 1 && a.rclass == 1 && |a.rdata| == 4
  }

  /** The address of the first A record of class IN. */
  function FirstA(answers: seq<Answer>): Result {
    if answers == [] then Err(NoARecord)
    else if IsA(answers[0]) then Ok(answers[0].rdata)
    else FirstA(answers[1..])
  }

  // ---- The parser as functions of the position ----

  function SkipLabels(data: Bytes, pos: nat): (end: nat)
    ensures end >= pos
    decreases |data| - pos
  {
    if pos < |data| && data[pos] != 0 then SkipLabels(data, pos + 1 + data[pos]) else pos
  }

  function SkipName(data: Bytes, pos: nat): (end: nat)
    requires pos < |data|
    ensures end > pos
  {
    if data[pos] >= 192 then pos + 2 else SkipLabels(data, pos) + 1
  }

  function ReadU16(data: Bytes, pos: nat): (n: u16)
    requires pos + 2 <= |data|
  {
    256 * (data[pos] as int) + data[pos + 1] as int
  }

  /** What the loop over the answers does at one position. */
  datatype Outcome = Stop(result: Result) | Next(pos: nat)

  function AnswerStep(data: Bytes, pos: nat): Outcome {
    if pos + 10 > |data| then Stop(Err(NoARecord))
    else
      var p := SkipName(data, pos);
      if p + 10 > |data| then Stop(Err(NoARecord))
      else
        var rdlen := ReadU16(data, p + 8);
        if ReadU16(data, p) == 1 && ReadU16(data, p + 2) == 1 && rdlen == 4 && p + 14 <= |data|
        then Stop(Ok(data[p + 10..p + 14]))
        else Next(p + 10 + rdlen)
  }

  function ParseAnswers(data: Bytes, pos: nat, count: nat): Result
    decreases count
  {
    if count == 0 then Err(NoARecord)
    else
      match AnswerStep(data, pos)
      case Stop(r) => r
      case Next(p) => ParseAnswers(data, p, count - 1)
  }

  function Parse(data: Bytes): Result {
    if |data| < 12 then Err(TooShort)
    else if data[3] % 16 != 0 then Err(ErrorCode(data[3] % 16))
    else if ReadU16(data, 6) == 0 then Err(NoAnswers)
    else ParseAnswers(data, SkipLabels(data, 12) + 5, ReadU16(data, 6))
  }

  // ---- Reading back what was written ----

  /** bytes stand in data at position pos. */
  ghost predicate At(data: Bytes, pos: nat, bytes: Bytes) {
    pos + |bytes| <= |data| && forall i :: 0 <= i < |bytes| ==> data[pos + i] == bytes[i]
  }

  lemma AtParts(data: Bytes, pos: nat, a: Bytes, b: Bytes)
    requires At(data, pos, a + b)
    ensures At(data, pos, a) && At(data, pos + |a|, b)
  {
    forall i | 0 <= i < |a|
      ensures data[pos + i] == a[i]
    {
      assert (a + b)[i] == a[i];
    }
    forall i | 0 <= i < |b|
      ensures data[pos + |a| + i] == b[i]
    {
      assert (a + b)[|a| + i] == b[i];
    }
  }

  lemma FitCons(labels: seq<Bytes>, lo: nat, hi: nat)
    requires labels != []
    ensures LabelsFit(labels, lo, hi) <==> lo <= |labels[0]| <= hi && LabelsFit(labels[1..], lo, hi)
  {
  }

  lemma Reassociate(a: Bytes, b: Bytes, c: Bytes)
    ensures (a + b) + c == a + (b + c)
  {
  }

  lemma FirstLabelApart(labels: seq<Bytes>, end: Bytes)
    requires labels != [] && |labels[0]| < 256
    ensures Labels(labels) + end == [|labels[0]|] + (labels[0] + (Labels(labels[1..]) + end))
    ensures |Labels(labels)| == 1 + |labels[0]| + |Labels(labels[1..])|
  {
    var l, rest := labels[0], Labels(labels[1..]);
    Reassociate([|l|] + l, rest, end);
    Reassociate([|l|], l, rest + end);
  }

  /** The first label and what follows it. */
  lemma AtLabel(data: Bytes, pos: nat, labels: seq<Bytes>, end: Bytes)
    requires labels != [] && |labels[0]| < 256 && At(data, pos, Labels(labels) + end)
    ensures pos < |data| && data[pos] == |labels[0]|
    ensures At(data, pos + 1 + |labels[0]|, Labels(labels[1..]) + end)
    ensures |Labels(labels)| == 1 + |labels[0]| + |Labels(labels[1..])|
  {
    var n, l, rest: Bytes := [|labels[0]|], labels[0], Labels(labels[1..]) + end;
    FirstLabelApart(labels, end);
    AtParts(data, pos, n, l + rest);
    AtParts(data, pos + 1, l, rest);
    assert n[0] == data[pos + 0];
  }

  /** Skipping runs over labels of 1 to 255 bytes and goes on after them. */
  lemma {:induction false} SkipLabelsOver(data: Bytes, pos: nat, labels: seq<Bytes>, end: Bytes)
    requires LabelsFit(labels, 1, 255) && At(data, pos, Labels(labels) + end)
    ensures SkipLabels(data, pos) == SkipLabels(data, pos + |Labels(labels)|)
    decreases |labels|
  {
    if labels == [] {
    } else {
      FitCons(labels, 1, 255);
      AtLabel(data, pos, labels, end);
      SkipLabelsOver(data, pos + 1 + |labels[0]|, labels[1..], end);
    }
  }

  /**
   * For labels of at most 255 bytes the question of a query is skipped correctly exactly when no label is empty:
   * a trailing dot ends the name one byte early.
   */
  lemma {:induction false} QuestionSkippedExactly(data: Bytes, pos: nat, labels: seq<Bytes>)
    requires LabelsFit(labels, 0, 255) && At(data, pos, Labels(labels) + [0])
    ensures SkipLabels(data, pos) == pos + |Labels(labels)| <==> LabelsFit(labels, 1, 255)
    ensures SkipLabels(data, pos) <= pos + |Labels(labels)|
    decreases |labels|
  {
    if labels == [] {
      assert data[pos + 0] == ([] + [0])[0];
    } else {
      FitCons(labels, 0, 255);
      FitCons(labels, 1, 255);
      AtLabel(data, pos, labels, [0]);
      if |labels[0]| > 0 {
        QuestionSkippedExactly(data, pos + 1 + |labels[0]|, labels[1..]);
      }
    }
  }

  lemma FirstByteIsPlain(data: Bytes, pos: nat, labels: seq<Bytes>, end: Bytes)
    requires LabelsFit(labels, 1, 63) && At(data, pos, Labels(labels) + end) && end != []
    requires labels == [] ==> end[0] == 0
    ensures pos < |data| && data[pos] < 192
  {
    if labels == [] {
      assert data[pos + 0] == ([] + end)[0];
    } else {
      AtLabel(data, pos, labels, end);
    }
  }

  /** A legal name is skipped correctly exactly when it does not mix labels with a final pointer. */
  lemma NameSkippedExactly(data: Bytes, pos: nat, n: Name)
    requires LegalName(n) && At(data, pos, NameBytes(n)) && pos < |data|
    ensures SkipName(data, pos) == pos + |NameBytes(n)| <==> !n.Mixed?
  {
    if n.Pointer? {
      assert data[pos + 0] == [n.hi, n.lo][0];
    } else {
      var end := if n.Plain? then [0] else [n.hi, n.lo];
      LabelsPassed(data, pos, n.labels, end);
      var p := pos + |Labels(n.labels)|;
      assert n.Mixed? ==> SkipLabels(data, p) == SkipLabels(data, p + 1 + n.hi);
    }
  }

  lemma LabelsPassed(data: Bytes, pos: nat, labels: seq<Bytes>, end: Bytes)
    requires LabelsFit(labels, 1, 63) && At(data, pos, Labels(labels) + end) && end != []
    requires labels == [] ==> end[0] == 0
    ensures pos < |data| && data[pos] < 192
    ensures SkipLabels(data, pos) == SkipLabels(data, pos + |Labels(labels)|)
    ensures pos + |Labels(labels)| + |end| <= |data| && data[pos + |Labels(labels)|] == end[0]
  {
    assert LabelsFit(labels, 1, 255);
    FirstByteIsPlain(data, pos, labels, end);
    SkipLabelsOver(data, pos, labels, end);
    AtParts(data, pos, Labels(labels), end);
    assert data[pos + |Labels(labels)| + 0] == end[0];
  }

  lemma ReadU16At(data: Bytes, pos: nat, n: u16)
    requires At(data, pos, U16(n))
    ensures pos + 2 <= |data| && ReadU16(data, pos) == n
  {
    assert data[pos + 0] == U16(n)[0] && data[pos + 1] == U16(n)[1];
  }

  lemma FixedFields(data: Bytes, pos: nat, a: Answer)
    requires |a.rdata| < 0x1_0000 && At(data, pos, FixedBytes(a))
    ensures pos + 10 <= |data|
    ensures ReadU16(data, pos) == a.rtype && ReadU16(data, pos + 2) == a.rclass && ReadU16(data, pos + 8) == |a.rdata|
  {
    var t, c, l, d := U16(a.rtype), U16(a.rclass), U32(a.ttl), U16(|a.rdata|);
    AtParts(data, pos, t + c + l, d);
    AtParts(data, pos, t + c, l);
    AtParts(data, pos, t, c);
    ReadU16At(data, pos, a.rtype);
    ReadU16At(data, pos + 2, a.rclass);
    ReadU16At(data, pos + 8, |a.rdata|);
  }

  /** One answer, field by field. */
  lemma AnswerFields(data: Bytes, pos: nat, a: Answer)
    requires WellFormed(a) && At(data, pos, AnswerBytes(a))
    ensures pos + 10 < |data|
    ensures var p := SkipName(data, pos);
            && p + 10 + |a.rdata| == pos + |AnswerBytes(a)| <= |data|
            && ReadU16(data, p) == a.rtype && ReadU16(data, p + 2) == a.rclass && ReadU16(data, p + 8) == |a.rdata|
            && data[p + 10..p + 10 + |a.rdata|] == a.rdata
  {
    var name, fixed := NameBytes(a.name), FixedBytes(a);
    AtParts(data, pos, name + fixed, a.rdata);
    AtParts(data, pos, name, fixed);
    assert |name| > 0;
    NameSkippedExactly(data, pos, a.name);
    FixedFields(data, pos + |name|, a);
  }

  /** The answer section reads back as the first A record it holds. */
  lemma {:induction false} AnswersReadBack(data: Bytes, pos: nat, answers: seq<Answer>)
    requires AllWellFormed(answers) && At(data, pos, AnswersBytes(answers))
    ensures ParseAnswers(data, pos, |answers|) == FirstA(answers)
    decreases |answers|
  {
    if answers == [] {
    } else {
      var a := answers[0];
      AtParts(data, pos, AnswerBytes(a), AnswersBytes(answers[1..]));
      AnswerFields(data, pos, a);
      AnswersReadBack(data, pos + |AnswerBytes(a)|, answers[1..]);
    }
  }

  /** A response: a header, the question of the query, the answers, and anything after them. */
  ghost function Response(header: Bytes, hostname: Bytes, answers: seq<Answer>, rest: Bytes): Bytes
    requires AllWellFormed(answers)
  {
    header + Question(SplitDots(hostname)) + AnswersBytes(answers) + rest
  }

  /**
   * Round trip: a response without error code that echoes the question of our own query and carries well-formed
   * answers parses to the first A record, and to an error when there is none.
   */
  lemma ResponseReadsBack(header: Bytes, hostname: Bytes, answers: seq<Answer>, rest: Bytes)
    requires LabelsFit(SplitDots(hostname), 1, 255)
    requires AllWellFormed(answers)
    requires |header| == 12 && header[3] % 16 == 0 && ReadU16(header, 6) == |answers|
    ensures Parse(Response(header, hostname, answers, rest)) ==
            if answers == [] then Err(NoAnswers) else FirstA(answers)
  {
    var labels := SplitDots(hostname);
    var data := Response(header, hostname, answers, rest);
    ResponseParts(header, hostname, answers, rest);
    PartsReadBack(data, labels, answers);
  }

  lemma PartsReadBack(data: Bytes, labels: seq<Bytes>, answers: seq<Answer>)
    requires LabelsFit(labels, 1, 255) && AllWellFormed(answers)
    requires |data| >= 12 && data[3] % 16 == 0 && ReadU16(data, 6) == |answers|
    requires At(data, 12, Labels(labels) + [0])
    requires At(data, 12 + |Question(labels)|, AnswersBytes(answers))
    ensures Parse(data) == if answers == [] then Err(NoAnswers) else FirstA(answers)
  {
    QuestionSkippedExactly(data, 12, labels);
    AnswersReadBack(data, 12 + |Question(labels)|, answers);
  }

  lemma ResponseParts(header: Bytes, hostname: Bytes, answers: seq<Answer>, rest: Bytes)
    requires AllWellFormed(answers) && |header| == 12
    ensures var labels, data := SplitDots(hostname), Response(header, hostname, answers, rest);
            && |data| >= 12 && data[3] == header[3] && ReadU16(data, 6) == ReadU16(header, 6)
            && At(data, 12, Labels(labels) + [0])
            && At(data, 12 + |Question(labels)|, AnswersBytes(answers))
  {
  }

  /** A host name with a trailing dot is not covered by the round trip: its last label is empty. */
  lemma {:induction false} TrailingDot(name: Bytes)
    ensures var ls := SplitDots(name + [DOT]); |ls| > 1 && ls[|ls| - 1] == [] && !LabelsFit(ls, 1, 255)
    decreases |name|
  {
    var s := name + [DOT];
    if name == [] {
      assert s[1..] == [];
    } else {
      TrailingDot(name[1..]);
      assert s[1..] == name[1..] + [DOT];
    }
    var ls := SplitDots(s);
    assert |ls[|ls| - 1]| == 0;
  }

  // ---- What a name server reads in the query ----

  /** A plain name as section 3.1 of RFC 1035 writes it: labels of 1 to 63 bytes, each behind its length, and a zero. */
  function ReadName(data: Bytes, pos: nat): Option<(seq<Bytes>, nat)>
    decreases |data| - pos
  {
    if pos >= |data| then None
    else
      var n := data[pos];
      if n == 0 then Some(([], pos + 1))
      else if n > 63 || pos + 1 + n > |data| then None
      else
        match ReadName(data, pos + 1 + n)
        case None => None
        case Some((labels, end)) => Some(([data[pos + 1..pos + 1 + n]] + labels, end))
  }

  lemma SliceAt(data: Bytes, pos: nat, bytes: Bytes)
    requires At(data, pos, bytes)
    ensures pos + |bytes| <= |data| && data[pos..pos + |bytes|] == bytes
  {
  }

  lemma LabelStandsAt(data: Bytes, pos: nat, labels: seq<Bytes>)
    requires labels != [] && |labels[0]| < 256 && At(data, pos, Labels(labels) + [0])
    ensures pos + 1 + |labels[0]| <= |data| && data[pos + 1..pos + 1 + |labels[0]|] == labels[0]
  {
    var l, rest := labels[0], Labels(labels[1..]) + [0];
    FirstLabelApart(labels, [0]);
    AtParts(data, pos, [|l|], l + rest);
    AtParts(data, pos + 1, l, rest);
    SliceAt(data, pos + 1, l);
  }

  /** Written labels are read back exactly when each has 1 to 63 bytes. */
  lemma {:induction false} NameReadsBackExactly(data: Bytes, pos: nat, labels: seq<Bytes>)
    requires LabelsFit(labels, 0, 255) && At(data, pos, Labels(labels) + [0])
    ensures ReadName(data, pos) == Some((labels, pos + |Labels(labels)| + 1)) <==> LabelsFit(labels, 1, 63)
    decreases |labels|
  {
    if labels == [] {
      assert data[pos + 0] == ([] + [0])[0];
    } else {
      FitCons(labels, 0, 255);
      FitCons(labels, 1, 63);
      AtLabel(data, pos, labels, [0]);
      LabelStandsAt(data, pos, labels);
      var next := pos + 1 + |labels[0]|;
      NameReadsBackExactly(data, next, labels[1..]);
      assert labels == [labels[0]] + labels[1..];
      var rest := ReadName(data, next);
      if 1 <= |labels[0]| <= 63 && rest.Some? {
        assert ([labels[0]] + rest.value.0)[1..] == rest.value.0;
      }
    }
  }

  const QUERY_HEADER: Bytes := [0x00, 0x01, 0x01, 0x00, 0x00, 0x01, 0x00, 0x00, 0x00, 0x00, 0x00, 0x00]

  function Query(hostname: Bytes): Bytes {
    QUERY_HEADER + Question(SplitDots(hostname))
  }

  lemma AtSuffix(a: Bytes, b: Bytes)
    ensures At(a + b, |a|, b)
  {
  }

  /** One question, recursion desired, and no records. */
  predicate AsksOneQuestion(q: Bytes) {
    && |q| >= 12 && ReadU16(q, 0) == 1 && ReadU16(q, 2) == 0x100
    && ReadU16(q, 4) == 1 && ReadU16(q, 6) == 0 && ReadU16(q, 8) == 0 && ReadU16(q, 10) == 0
  }

  /** Behind the header the labels are read, and behind them type A and class IN, and no more. */
  predicate Asks(q: Bytes, labels: seq<Bytes>) {
    ReadName(q, 12) == Some((labels, |q| - 4)) && TypeAIn(q)
  }

  predicate TypeAIn(q: Bytes) {
    |q| >= 4 && ReadU16(q, |q| - 4) == 1 && ReadU16(q, |q| - 2) == 1
  }

  lemma HeaderReadsBack(body: Bytes)
    ensures AsksOneQuestion(QUERY_HEADER + body)
  {
    assert forall i :: 0 <= i < 12 ==> (QUERY_HEADER + body)[i] == QUERY_HEADER[i];
  }

  lemma TypeAndClass(q: Bytes, end: nat)
    requires At(q, end, [0, 1, 0, 1])
    ensures end + 4 <= |q| && ReadU16(q, end) == 1 && ReadU16(q, end + 2) == 1
  {
    var bytes: Bytes := [0, 1, 0, 1];
    assert q[end + 0] == bytes[0] && q[end + 1] == bytes[1] && q[end + 2] == bytes[2] && q[end + 3] == bytes[3];
  }

  lemma QuestionReadsBack(header: Bytes, labels: seq<Bytes>)
    requires |header| == 12 && LabelsFit(labels, 0, 255)
    ensures var q := header + Question(labels);
            TypeAIn(q) && (Asks(q, labels) <==> LabelsFit(labels, 1, 63))
  {
    QuestionStands(header, Labels(labels) + [0], [0, 1, 0, 1]);
    PlacedReadsBack(header + Question(labels), labels);
  }

  lemma QuestionStands(header: Bytes, name: Bytes, tail: Bytes)
    requires |header| == 12
    ensures var q := header + (name + tail);
            At(q, 12, name) && At(q, 12 + |name|, tail) && |q| == 12 + |name| + |tail|
  {
    AtSuffix(header, name + tail);
    AtParts(header + (name + tail), 12, name, tail);
  }

  lemma PlacedReadsBack(q: Bytes, labels: seq<Bytes>)
    requires LabelsFit(labels, 0, 255) && At(q, 12, Labels(labels) + [0])
    requires At(q, 12 + |Labels(labels)| + 1, [0, 1, 0, 1]) && |q| == 12 + |Labels(labels)| + 5
    ensures TypeAIn(q) && (Asks(q, labels) <==> LabelsFit(labels, 1, 63))
  {
    NameReadsBackExactly(q, 12, labels);
    TypeAndClass(q, |q| - 4);
  }

  /**
   * The query asks one question, recursion desired, and carries no record. For pieces of at most 255 bytes the name in
   * it is the host name's exactly when each piece has 1 to 63 bytes; behind it stand type A and class IN, and no more.
   */
  lemma QueryReadsBack(hostname: Bytes)
    requires LabelsFit(SplitDots(hostname), 0, 255)
    ensures AsksOneQuestion(Query(hostname)) && TypeAIn(Query(hostname))
    ensures Asks(Query(hostname), SplitDots(hostname)) <==> LabelsFit(SplitDots(hostname), 1, 63)
  {
    HeaderReadsBack(Question(SplitDots(hostname)));
    QuestionReadsBack(QUERY_HEADER, SplitDots(hostname));
  }

  // ---- Every result explained ----

  /** A record of type A, class IN and four bytes stands at p, behind its name. */
  ghost predicate RecordAt(data: Bytes, p: nat, ip: Bytes) {
    && p + 14 <= |data| && |ip| == 4
    && data[p..p + 4] == [0, 1, 0, 1] && data[p + 8..p + 10] == [0, 4] && data[p + 10..p + 14] == ip
  }

  lemma TwoBytes(data: Bytes, p: nat, n: u16)
    requires p + 2 <= |data| && ReadU16(data, p) == n && n < 256
    ensures data[p] == 0 && data[p + 1] == n
  {
  }

  lemma StepFindsRecord(data: Bytes, pos: nat)
    ensures AnswerStep(data, pos).Stop? ==>
              var r := AnswerStep(data, pos).result;
              r == Err(NoARecord) || (r.Ok? && exists p: nat :: p > pos && RecordAt(data, p, r.ip))
  {
    var o := AnswerStep(data, pos);
    if o.Stop? && o.result.Ok? {
      var p := SkipName(data, pos);
      TwoBytes(data, p, 1);
      TwoBytes(data, p + 2, 1);
      TwoBytes(data, p + 8, 4);
      assert data[p..p + 4] == [0, 1, 0, 1];
      assert RecordAt(data, p, o.result.ip);
    }
  }

  lemma {:induction false} AnswersFindRecord(data: Bytes, pos: nat, count: nat)
    ensures var r := ParseAnswers(data, pos, count);
            r == Err(NoARecord) || (r.Ok? && exists p: nat :: p > pos && RecordAt(data, p, r.ip))
    decreases count
  {
    if count == 0 {
    } else {
      StepFindsRecord(data, pos);
      var o := AnswerStep(data, pos);
      if o.Next? {
        AnswersFindRecord(data, o.pos, count - 1);
        var r := ParseAnswers(data, o.pos, count - 1);
        if r.Ok? {
          var p: nat :| p > o.pos && RecordAt(data, p, r.ip);
          assert p > pos;
        }
      }
    }
  }

  /**
   * For every byte string: too short exactly below 12 bytes; then an error code exactly when there is one, whatever
   * follows; then no answers exactly when the count says so; and otherwise an address that stands in the buffer as a
   * record of type A and class IN, or none.
   */
  lemma ResultsExplained(data: Bytes)
    ensures var r := Parse(data);
            && (r == Err(TooShort) <==> |data| < 12)
            && (|data| >= 12 && data[3] % 16 != 0 ==> r == Err(ErrorCode(data[3] % 16)))
            && (|data| >= 12 && data[3] % 16 == 0 && data[6] == 0 && data[7] == 0 ==> r == Err(NoAnswers))
            && (|data| >= 12 && data[3] % 16 == 0 && (data[6] != 0 || data[7] != 0) ==>
                  r == Err(NoARecord) || (r.Ok? && exists p: nat :: p > 12 && RecordAt(data, p, r.ip)))
  {
    if |data| >= 12 && data[3] % 16 == 0 && (data[6] != 0 || data[7] != 0) {
      var pos, count := SkipLabels(data, 12) + 5, ReadU16(data, 6);
      AnswersFindRecord(data, pos, count);
      var r := ParseAnswers(data, pos, count);
      if r.Ok? {
        var p: nat :| p > pos && RecordAt(data, p, r.ip);
        assert p > 12;
      }
    }
  }

  // ---- The imperative code ----

  method BuildDnsQuery(hostname: Bytes) returns (packet: Bytes)
    ensures packet == Query(hostname)
  {
    packet := [0x00, 0x01];
    packet := packet + [0x01, 0x00];
    packet := packet + [0x00, 0x01];
    packet := packet + [0x00, 0x00];
    packet := packet + [0x00, 0x00];
    packet := packet + [0x00, 0x00];
    var labels := SplitDots(hostname);
    for i := 0 to |labels|
      invariant packet + Labels(labels[i..]) == QUERY_HEADER + Labels(labels)
    {
      ghost var before := packet;
      packet := packet + [|labels[i]| % 256];
      packet := packet + labels[i];
      assert labels[i..][0] == labels[i] && labels[i..][1..] == labels[i + 1..];
      assert packet + Labels(labels[i + 1..]) == before + Labels(labels[i..]);
    }
    assert labels[|labels|..] == [] && packet == QUERY_HEADER + Labels(labels);
    packet := packet + [0x00];
    packet := packet + [0x00, 0x01];
    packet := packet + [0x00, 0x01];
  }

  /** Jumps from length byte to length byte until a zero byte or the end of the buffer. */
  method PassLabels(data: Bytes, start: nat) returns (pos: nat)
    ensures pos == SkipLabels(data, start)
  {
    pos := start;
    while pos < |data| && data[pos] != 0
      invariant SkipLabels(data, pos) == SkipLabels(data, start)
      decreases |data| - pos
    {
      pos := pos + 1 + data[pos];
    }
  }

  /** The body of the loop over the answers. */
  method ReadAnswer(data: Bytes, start: nat) returns (o: Outcome)
    ensures o == AnswerStep(data, start)
  {
    var pos := start;
    if pos + 10 > |data| {
      return Stop(Err(NoARecord));
    }
    if data[pos] >= 192 {
      pos := pos + 2;
    } else {
      pos := PassLabels(data, pos);
      pos := pos + 1;
    }
    if pos + 10 > |data| {
      return Stop(Err(NoARecord));
    }
    var qtype := 256 * (data[pos] as int) + data[pos + 1] as int;
    pos := pos + 2;
    var qclass := 256 * (data[pos] as int) + data[pos + 1] as int;
    pos := pos + 2;
    pos := pos + 4;
    var rdlen := 256 * (data[pos] as int) + data[pos + 1] as int;
    pos := pos + 2;
    if qtype == 1 && qclass == 1 && rdlen == 4 && pos + 4 <= |data| {
      assert data[pos..pos + 4] == [data[pos], data[pos + 1], data[pos + 2], data[pos + 3]];
      return Stop(Ok([data[pos], data[pos + 1], data[pos + 2], data[pos + 3]]));
    }
    pos := pos + rdlen;
    return Next(pos);
  }

  /** Reads inside the buffer and stops on every byte string. */
  method ParseDnsResponse(data: Bytes) returns (r: Result)
    ensures r == Parse(data)
  {
    if |data| < 12 {
      return Err(TooShort);
    }
    var rcode := data[3] % 16;
    if rcode != 0 {
      return Err(ErrorCode(rcode));
    }
    var ancount := 256 * (data[6] as int) + data[7] as int;
    if ancount == 0 {
      return Err(NoAnswers);
    }
    var pos := 12;
    pos := PassLabels(data, pos);
    pos := pos + 1;
    pos := pos + 4;
    for i := 0 to ancount
      invariant pos >= 0
      invariant ParseAnswers(data, pos, ancount - i) == Parse(data)
    {
      var outcome := ReadAnswer(data, pos);
      if outcome.Stop? {
        return outcome.result;
      }
      pos := outcome.pos;
    }
    return Err(NoARecord);
  }
}
