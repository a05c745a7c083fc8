/**
 Messages as section 4.1 of RFC 1035 lays them out, read by offset: an independent receiver. It
 shares nothing with the codec but the types it returns and the reading of names; all offsets and
 code numbers are written out. Read strictly, it holds to reserved label octets, and to RDLENGTH;
 read leniently, it is as permissive as the program.
 */
module Standard {
  import opened Bytes
  import opened Names
  import opened LabelParser
  import opened Messages

  /** A value, and the offset after it. */
  datatype Spot<T> = Spot(value: T, next: nat)

  function Octet(b: seq<byte>, p: nat): (n: int)
    requires p < |b|
    ensures 0 <= n < 256
  {
    b[p]
  }

  function Word(b: seq<byte>, p: nat): u16
    requires p + 2 <= |b|
  {
    Octet(b, p) * 256 + Octet(b, p + 1)
  }

  function Long(b: seq<byte>, p: nat): u32
    requires p + 4 <= |b|
  {
    Octet(b, p) * 16777216 + Octet(b, p + 1) * 65536 + Octet(b, p + 2) * 256 + Octet(b, p + 3)
  }

  /** Dots inside a segment split it, as they do where the program compares names. */
  function NameAt(b: seq<byte>, p: nat, strict: bool): Option<Spot<Name>>
  {
    if p > |b| then None
    else if strict then
      match StrictDecode(b[p..], b, 4)
      case None => None
      case Some(d) => if |d.rest| <= |b| then Some(Spot(FlatSplit(d.segs), |b| - |d.rest|)) else None
    else
      match Decode(b[p..], b, 4)
      case None => None
      case Some(d) => if |d.rest| <= |b| then Some(Spot(FlatSplit(d.segs), |b| - |d.rest|)) else None
  }

  /** The TYPE numbers of RFC 1035, RFC 3596 and RFC 2782. */
  function TypeNamed(code: u16): QType
  {
    if code == 1 then A
    else if code == 12 then PTR
    else if code == 16 then TXT
    else if code == 28 then AAAA
    else if code == 33 then SRV
    else if code == 255 then Any
    else Unknown(code)
  }

  /** The CLASS numbers; the top bit is the cache flush bit of RFC 6762. */
  function ClassNamed(code: u16): QClass
  {
    if code == 1 then IN else if code == 32769 then Multicast else Other(code)
  }

  function QuestionAt(b: seq<byte>, p: nat, strict: bool): Option<Spot<Query<Name>>>
  {
    match NameAt(b, p, strict)
    case None => None
    case Some(n) =>
      if n.next + 4 > |b| then None
      else Some(Spot(Query(n.value, TypeNamed(Word(b, n.next)), ClassNamed(Word(b, n.next + 2))), n.next + 4))
  }

  /** RDLENGTH and RDATA. */
  function RecordAt(b: seq<byte>, p: nat, t: QType, strict: bool): Option<Spot<Record<Name>>>
  {
    if p + 2 > |b| then None
    else
      var end := p + 2 + Word(b, p);
      match t
      case A => if end <= |b| && end == p + 6 then Some(Spot(RecA(b[p + 2..end]), end)) else None
      case AAAA => if end <= |b| && end == p + 18 then Some(Spot(RecAAAA(b[p + 2..end]), end)) else None
      case TXT => if end <= |b| && Utf8(b[p + 2..end]) then Some(Spot(RecTXT(b[p + 2..end]), end)) else None
      case PTR =>
        (match NameAt(b, p + 2, strict)
         case None => None
         case Some(n) => if strict && n.next != end then None else Some(Spot(RecPTR(n.value), n.next)))
      case SRV =>
        if p + 8 > |b| then None
        else
          (match NameAt(b, p + 8, strict)
           case None => None
           case Some(n) =>
             if strict && n.next != end then None
             else Some(Spot(RecSRV(Word(b, p + 2), Word(b, p + 4), Word(b, p + 6), n.value), n.next)))
      case Any => None
      case Unknown(_) => None
  }

  function AnswerAt(b: seq<byte>, p: nat, strict: bool): Option<Spot<Answer<Name>>>
  {
    match NameAt(b, p, strict)
    case None => None
    case Some(n) =>
      if n.next + 8 > |b| then None
      else
        var t := TypeNamed(Word(b, n.next));
        match RecordAt(b, n.next + 8, t, strict)
        case None => None
        case Some(r) =>
          Some(Spot(Answer(n.value, t, ClassNamed(Word(b, n.next + 2)), Long(b, n.next + 4), r.value), r.next))
  }

  function QuestionsAt(b: seq<byte>, p: nat, n: nat, strict: bool): Option<Spot<seq<Query<Name>>>>
    decreases n
  {
    if n == 0 then Some(Spot([], p))
    else
      match QuestionAt(b, p, strict)
      case None => None
      case Some(q) =>
        match QuestionsAt(b, q.next, n - 1, strict)
        case None => None
        case Some(more) => Some(Spot([q.value] + more.value, more.next))
  }

  function AnswersAt(b: seq<byte>, p: nat, n: nat, strict: bool): Option<Spot<seq<Answer<Name>>>>
    decreases n
  {
    if n == 0 then Some(Spot([], p))
    else
      match AnswerAt(b, p, strict)
      case None => None
      case Some(a) =>
        match AnswersAt(b, a.next, n - 1, strict)
        case None => None
        case Some(more) => Some(Spot([a.value] + more.value, more.next))
  }

  /**
   Octets 0 to 11 are ID, flags, QDCOUNT, ANCOUNT, NSCOUNT and ARCOUNT. The top bit of octet 2 is QR.
   A query is read for its questions alone, whatever the other counts say; a response for its
   questions and answers.
   */
  function MessageAt(b: seq<byte>, strict: bool): Option<Spot<Message<Name>>>
  {
    if |b| < 12 then None
    else
      match QuestionsAt(b, 12, Word(b, 4), strict)
      case None => None
      case Some(qs) =>
        if Octet(b, 2) < 128 then Some(Spot(Request(Word(b, 0), Word(b, 2), qs.value), qs.next))
        else
          match AnswersAt(b, qs.next, Word(b, 6), strict)
          case None => None
          case Some(xs) => Some(Spot(Response(Word(b, 0), Word(b, 2), qs.value, xs.value), xs.next))
  }
}
