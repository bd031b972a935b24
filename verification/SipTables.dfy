/** The constant tables of src/sipster/sip_enums.h and src/sip_headers_private.h. */
module SipTables {

  datatype Option<+T> = None | Some(value: T)

  // --------------------------------------------------------------------- methods

  const METHOD_NAMES: seq<string> := [
    "INVITE", "ACK", "BYE", "CANCEL", "OPTIONS", "REGISTER", "PRACK", "SUBSCRIBE", "NOTIFY", "PUBLISH",
    "INFO", "REFER", "MESSAGE", "UPDATE"
  ]

  type Method = m: nat | m < 14

  function MethodName(m: Method): string {
    METHOD_NAMES[m]
  }

  /** The place of a method name in the table. */
  method FindMethod(name: string) returns (m: Option<Method>)
    ensures m == MethodOf(name)
    ensures m.Some? ==> MethodName(m.value) == name && forall j: Method :: j < m.value ==> MethodName(j) != name
    ensures m == None ==> forall j: Method :: MethodName(j) != name
  {
    hide MethodName;
    var i := 0;
    while i < 14
      invariant i <= 14 && MethodOf(name) == MethodFrom(name, i)
      invariant forall j: Method :: j < i ==> MethodName(j) != name
    {
      if name == MethodName(i) {
        return Some(i);
      }
      i := i + 1;
    }
    m := None;
  }

  function MethodOf(name: string): Option<Method> {
    MethodFrom(name, 0)
  }

  function MethodFrom(name: string, i: nat): Option<Method>
    requires i <= 14
    decreases 14 - i
  {
    if i == 14 then None else if name == MethodName(i) then Some(i) else MethodFrom(name, i + 1)
  }

  lemma MethodsDiffer(m: Method, n: Method)
    requires m != n
    ensures MethodName(m) != MethodName(n)
  {
  }

  lemma {:induction false} MethodFound(m: Method, i: nat)
    requires i <= m
    ensures MethodFrom(MethodName(m), i) == Some(m)
    decreases m - i
  {
    hide MethodName;
    if i < m {
      MethodsDiffer(i, m);
      MethodFound(m, i + 1);
    }
  }

  // -------------------------------------------------------------------- statuses

  /** A place in the table of statuses, from 100 Trying to 606 Not Acceptable. The table is
      written in chunks, with its lemmas chunk by chunk, because the verifier does not look
      into a constant sequence of 71 entries. */
  type Status = s: nat | s < 71

  function CodeBelow300(s: Status): int {
    match s
    case 0 => 100
    case 1 => 180
    case 2 => 181
    case 3 => 182
    case 4 => 183
    case 5 => 199
    case 6 => 200
    case 7 => 202
    case _ => 204
  }

  function CodeFrom300(s: Status): int {
    match s
    case 9 => 300
    case 10 => 301
    case 11 => 302
    case 12 => 305
    case _ => 380
  }

  function CodeFrom400(s: Status): int {
    match s
    case 14 => 400
    case 15 => 401
    case 16 => 402
    case 17 => 403
    case 18 => 404
    case 19 => 405
    case 20 => 406
    case _ => 407
  }

  function CodeFrom408(s: Status): int {
    match s
    case 22 => 408
    case 23 => 409
    case 24 => 410
    case 25 => 411
    case 26 => 412
    case 27 => 413
    case 28 => 414
    case _ => 415
  }

  function CodeFrom416(s: Status): int {
    match s
    case 30 => 416
    case 31 => 417
    case 32 => 420
    case 33 => 421
    case 34 => 422
    case 35 => 423
    case 36 => 424
    case _ => 428
  }

  function CodeFrom430(s: Status): int {
    match s
    case 38 => 429
    case 39 => 430
    case 40 => 433
    case _ => 436
  }

  function CodeFrom437(s: Status): int {
    match s
    case 42 => 437
    case 43 => 438
    case _ => 439
  }

  function CodeFrom480(s: Status): int {
    match s
    case 45 => 470
    case 46 => 480
    case 47 => 481
    case 48 => 482
    case 49 => 483
    case 50 => 484
    case _ => 485
  }

  function CodeFrom486(s: Status): int {
    match s
    case 52 => 486
    case 53 => 487
    case 54 => 488
    case 55 => 489
    case 56 => 491
    case 57 => 493
    case _ => 494
  }

  function CodeFrom500(s: Status): int {
    match s
    case 59 => 500
    case 60 => 501
    case 61 => 502
    case 62 => 503
    case 63 => 504
    case 64 => 505
    case 65 => 513
    case _ => 580
  }

  function CodeFrom600(s: Status): int {
    match s
    case 67 => 600
    case 68 => 603
    case 69 => 604
    case _ => 606
  }

  function StatusCode(s: Status): int {
    if s < 9 then CodeBelow300(s)
    else if s < 14 then CodeFrom300(s)
    else if s < 22 then CodeFrom400(s)
    else if s < 30 then CodeFrom408(s)
    else if s < 38 then CodeFrom416(s)
    else if s < 42 then CodeFrom430(s)
    else if s < 45 then CodeFrom437(s)
    else if s < 52 then CodeFrom480(s)
    else if s < 59 then CodeFrom486(s)
    else if s < 67 then CodeFrom500(s)
    else CodeFrom600(s)
  }

  function PhraseBelow300(s: Status): string {
    match s
    case 0 => "Trying"
    case 1 => "Ringing"
    case 2 => "Call Forwarding"
    case 3 => "Queued"
    case 4 => "Session In Progress"
    case 5 => "Early Dialog Terminated"
    case 6 => "OK"
    case 7 => "Accepted"
    case _ => "No Notification"
  }

  function PhraseFrom300(s: Status): string {
    match s
    case 9 => "Multiple Choices"
    case 10 => "Moved Permanently"
    case 11 => "Moved Temporarily"
    case 12 => "Use Procy"
    case _ => "Alternative Service"
  }

  function PhraseFrom400(s: Status): string {
    match s
    case 14 => "Bad Request"
    case 15 => "Unauthorized"
    case 16 => "Payment Required"
    case 17 => "Forbidden"
    case 18 => "Not Found"
    case 19 => "Method Not Allowed"
    case 20 => "Not Acceptable"
    case _ => "Proxy Authentication Required"
  }

  function PhraseFrom408(s: Status): string {
    match s
    case 22 => "Request Timeout"
    case 23 => "Conflict"
    case 24 => "Gone"
    case 25 => "Length Required"
    case 26 => "Conditional Request Failed"
    case 27 => "Request Entity Too Large"
    case 28 => "Request Uri Too Long"
    case _ => "Unsupported Media Type"
  }

  function PhraseFrom416(s: Status): string {
    match s
    case 30 => "Unsupported Uri Scheme"
    case 31 => "Unknown Resource Priority"
    case 32 => "Bad Extension"
    case 33 => "Extension Required"
    case 34 => "Session Interval Too Small"
    case 35 => "Interval Too Brief"
    case 36 => "Bad Location Information"
    case _ => "Use Identity Header"
  }

  function PhraseFrom430(s: Status): string {
    match s
    case 38 => "Provide Referrer Identity"
    case 39 => "Flow Failed"
    case 40 => "Anonymity Disallowed"
    case _ => "Bad Identity Info"
  }

  function PhraseFrom437(s: Status): string {
    match s
    case 42 => "Unsupported Certificate"
    case 43 => "Invalid Identity Header"
    case _ => "First Hop Lacks Outbound Support"
  }

  function PhraseFrom480(s: Status): string {
    match s
    case 45 => "Consent Needed"
    case 46 => "Temporarily Unavailable"
    case 47 => "Call Transaction Does Not Exist"
    case 48 => "Loop Detected"
    case 49 => "Too Many Hops"
    case 50 => "Address Incomplete"
    case _ => "Ambiguous"
  }

  function PhraseFrom486(s: Status): string {
    match s
    case 52 => "Busy Here"
    case 53 => "Request Terminated"
    case 54 => "Not Acceptable Here"
    case 55 => "Bad Event"
    case 56 => "Request Pending"
    case 57 => "Undecipherable"
    case _ => "Security Agreement Required"
  }

  function PhraseFrom500(s: Status): string {
    match s
    case 59 => "Server Internal Error"
    case 60 => "Not Implemented"
    case 61 => "Bad Gateway"
    case 62 => "Service Unavailable"
    case 63 => "Server Time Out"
    case 64 => "Version Not Supported"
    case 65 => "Message Too Large"
    case _ => "Precondition Failure"
  }

  function PhraseFrom600(s: Status): string {
    match s
    case 67 => "Busy Everywhere"
    case 68 => "Decline"
    case 69 => "Does Not Exist Anywhere"
    case _ => "Not Acceptable"
  }

  function StatusPhrase(s: Status): string {
    if s < 9 then PhraseBelow300(s)
    else if s < 14 then PhraseFrom300(s)
    else if s < 22 then PhraseFrom400(s)
    else if s < 30 then PhraseFrom408(s)
    else if s < 38 then PhraseFrom416(s)
    else if s < 42 then PhraseFrom430(s)
    else if s < 45 then PhraseFrom437(s)
    else if s < 52 then PhraseFrom480(s)
    else if s < 59 then PhraseFrom486(s)
    else if s < 67 then PhraseFrom500(s)
    else PhraseFrom600(s)
  }

  predicate OneLine(t: string) {
    forall i :: 0 <= i < |t| ==> t[i] != '\r' && t[i] != '\n'
  }

  lemma PhraseBelow300Ok(s: Status)
    requires 0 <= s < 9
    ensures OneLine(PhraseBelow300(s)) && |PhraseBelow300(s)| <= 34
  {
    match s {
      case 0 => assert OneLine(PhraseBelow300(0));
      case 1 => assert OneLine(PhraseBelow300(1));
      case 2 => assert OneLine(PhraseBelow300(2));
      case 3 => assert OneLine(PhraseBelow300(3));
      case 4 => assert OneLine(PhraseBelow300(4));
      case 5 => assert OneLine(PhraseBelow300(5));
      case 6 => assert OneLine(PhraseBelow300(6));
      case 7 => assert OneLine(PhraseBelow300(7));
      case _ => assert OneLine(PhraseBelow300(8));
    }
  }

  lemma PhraseFrom300Ok(s: Status)
    requires 9 <= s < 14
    ensures OneLine(PhraseFrom300(s)) && |PhraseFrom300(s)| <= 34
  {
    match s {
      case 9 => assert OneLine(PhraseFrom300(9));
      case 10 => assert OneLine(PhraseFrom300(10));
      case 11 => assert OneLine(PhraseFrom300(11));
      case 12 => assert OneLine(PhraseFrom300(12));
      case _ => assert OneLine(PhraseFrom300(13));
    }
  }

  lemma PhraseFrom400Start(s: Status)
    requires 14 <= s < 18
    ensures OneLine(PhraseFrom400(s)) && |PhraseFrom400(s)| <= 34
  {
    match s {
      case 14 => assert OneLine(PhraseFrom400(14));
      case 15 => assert OneLine(PhraseFrom400(15));
      case 16 => assert OneLine(PhraseFrom400(16));
      case _ => assert OneLine(PhraseFrom400(17));
    }
  }

  lemma PhraseFrom400End(s: Status)
    requires 18 <= s < 22
    ensures OneLine(PhraseFrom400(s)) && |PhraseFrom400(s)| <= 34
  {
    match s {
      case 18 => assert OneLine(PhraseFrom400(18));
      case 19 => assert OneLine(PhraseFrom400(19));
      case 20 => assert OneLine(PhraseFrom400(20));
      case _ => assert OneLine(PhraseFrom400(21));
    }
  }

  lemma PhraseFrom400Ok(s: Status)
    requires 14 <= s < 22
    ensures OneLine(PhraseFrom400(s)) && |PhraseFrom400(s)| <= 34
  {
    hide PhraseFrom400, OneLine;
    if s < 18 { PhraseFrom400Start(s); } else { PhraseFrom400End(s); }
  }

  lemma PhraseFrom408Start(s: Status)
    requires 22 <= s < 26
    ensures OneLine(PhraseFrom408(s)) && |PhraseFrom408(s)| <= 34
  {
    match s {
      case 22 => assert OneLine(PhraseFrom408(22));
      case 23 => assert OneLine(PhraseFrom408(23));
      case 24 => assert OneLine(PhraseFrom408(24));
      case _ => assert OneLine(PhraseFrom408(25));
    }
  }

  lemma PhraseFrom408End(s: Status)
    requires 26 <= s < 30
    ensures OneLine(PhraseFrom408(s)) && |PhraseFrom408(s)| <= 34
  {
    match s {
      case 26 => assert OneLine(PhraseFrom408(26));
      case 27 => assert OneLine(PhraseFrom408(27));
      case 28 => assert OneLine(PhraseFrom408(28));
      case _ => assert OneLine(PhraseFrom408(29));
    }
  }

  lemma PhraseFrom408Ok(s: Status)
    requires 22 <= s < 30
    ensures OneLine(PhraseFrom408(s)) && |PhraseFrom408(s)| <= 34
  {
    hide PhraseFrom408, OneLine;
    if s < 26 { PhraseFrom408Start(s); } else { PhraseFrom408End(s); }
  }

  lemma PhraseFrom416Start(s: Status)
    requires 30 <= s < 34
    ensures OneLine(PhraseFrom416(s)) && |PhraseFrom416(s)| <= 34
  {
    match s {
      case 30 => assert OneLine(PhraseFrom416(30));
      case 31 => assert OneLine(PhraseFrom416(31));
      case 32 => assert OneLine(PhraseFrom416(32));
      case _ => assert OneLine(PhraseFrom416(33));
    }
  }

  lemma PhraseFrom416End(s: Status)
    requires 34 <= s < 38
    ensures OneLine(PhraseFrom416(s)) && |PhraseFrom416(s)| <= 34
  {
    match s {
      case 34 => assert OneLine(PhraseFrom416(34));
      case 35 => assert OneLine(PhraseFrom416(35));
      case 36 => assert OneLine(PhraseFrom416(36));
      case _ => assert OneLine(PhraseFrom416(37));
    }
  }

  lemma PhraseFrom416Ok(s: Status)
    requires 30 <= s < 38
    ensures OneLine(PhraseFrom416(s)) && |PhraseFrom416(s)| <= 34
  {
    hide PhraseFrom416, OneLine;
    if s < 34 { PhraseFrom416Start(s); } else { PhraseFrom416End(s); }
  }

  lemma PhraseFrom430Ok(s: Status)
    requires 38 <= s < 42
    ensures OneLine(PhraseFrom430(s)) && |PhraseFrom430(s)| <= 34
  {
    match s {
      case 38 => assert OneLine(PhraseFrom430(38));
      case 39 => assert OneLine(PhraseFrom430(39));
      case 40 => assert OneLine(PhraseFrom430(40));
      case _ => assert OneLine(PhraseFrom430(41));
    }
  }

  lemma PhraseFrom437Ok(s: Status)
    requires 42 <= s < 45
    ensures OneLine(PhraseFrom437(s)) && |PhraseFrom437(s)| <= 34
  {
    match s {
      case 42 => assert OneLine(PhraseFrom437(42));
      case 43 => assert OneLine(PhraseFrom437(43));
      case _ => assert OneLine(PhraseFrom437(44));
    }
  }

  lemma PhraseFrom480Start(s: Status)
    requires 45 <= s < 48
    ensures OneLine(PhraseFrom480(s)) && |PhraseFrom480(s)| <= 34
  {
    match s {
      case 45 => assert OneLine(PhraseFrom480(45));
      case 46 => assert OneLine(PhraseFrom480(46));
      case _ => assert OneLine(PhraseFrom480(47));
    }
  }

  lemma PhraseFrom480End(s: Status)
    requires 48 <= s < 52
    ensures OneLine(PhraseFrom480(s)) && |PhraseFrom480(s)| <= 34
  {
    match s {
      case 48 => assert OneLine(PhraseFrom480(48));
      case 49 => assert OneLine(PhraseFrom480(49));
      case 50 => assert OneLine(PhraseFrom480(50));
      case _ => assert OneLine(PhraseFrom480(51));
    }
  }

  lemma PhraseFrom480Ok(s: Status)
    requires 45 <= s < 52
    ensures OneLine(PhraseFrom480(s)) && |PhraseFrom480(s)| <= 34
  {
    hide PhraseFrom480, OneLine;
    if s < 48 { PhraseFrom480Start(s); } else { PhraseFrom480End(s); }
  }

  lemma PhraseFrom486Start(s: Status)
    requires 52 <= s < 55
    ensures OneLine(PhraseFrom486(s)) && |PhraseFrom486(s)| <= 34
  {
    match s {
      case 52 => assert OneLine(PhraseFrom486(52));
      case 53 => assert OneLine(PhraseFrom486(53));
      case _ => assert OneLine(PhraseFrom486(54));
    }
  }

  lemma PhraseFrom486End(s: Status)
    requires 55 <= s < 59
    ensures OneLine(PhraseFrom486(s)) && |PhraseFrom486(s)| <= 34
  {
    match s {
      case 55 => assert OneLine(PhraseFrom486(55));
      case 56 => assert OneLine(PhraseFrom486(56));
      case 57 => assert OneLine(PhraseFrom486(57));
      case _ => assert OneLine(PhraseFrom486(58));
    }
  }

  lemma PhraseFrom486Ok(s: Status)
    requires 52 <= s < 59
    ensures OneLine(PhraseFrom486(s)) && |PhraseFrom486(s)| <= 34
  {
    hide PhraseFrom486, OneLine;
    if s < 55 { PhraseFrom486Start(s); } else { PhraseFrom486End(s); }
  }

  lemma PhraseFrom500Start(s: Status)
    requires 59 <= s < 63
    ensures OneLine(PhraseFrom500(s)) && |PhraseFrom500(s)| <= 34
  {
    match s {
      case 59 => assert OneLine(PhraseFrom500(59));
      case 60 => assert OneLine(PhraseFrom500(60));
      case 61 => assert OneLine(PhraseFrom500(61));
      case _ => assert OneLine(PhraseFrom500(62));
    }
  }

  lemma PhraseFrom500End(s: Status)
    requires 63 <= s < 67
    ensures OneLine(PhraseFrom500(s)) && |PhraseFrom500(s)| <= 34
  {
    match s {
      case 63 => assert OneLine(PhraseFrom500(63));
      case 64 => assert OneLine(PhraseFrom500(64));
      case 65 => assert OneLine(PhraseFrom500(65));
      case _ => assert OneLine(PhraseFrom500(66));
    }
  }

  lemma PhraseFrom500Ok(s: Status)
    requires 59 <= s < 67
    ensures OneLine(PhraseFrom500(s)) && |PhraseFrom500(s)| <= 34
  {
    hide PhraseFrom500, OneLine;
    if s < 63 { PhraseFrom500Start(s); } else { PhraseFrom500End(s); }
  }

  lemma PhraseFrom600Ok(s: Status)
    requires 67 <= s < 71
    ensures OneLine(PhraseFrom600(s)) && |PhraseFrom600(s)| <= 34
  {
    match s {
      case 67 => assert OneLine(PhraseFrom600(67));
      case 68 => assert OneLine(PhraseFrom600(68));
      case 69 => assert OneLine(PhraseFrom600(69));
      case _ => assert OneLine(PhraseFrom600(70));
    }
  }

  lemma PhraseClean(s: Status)
    ensures OneLine(StatusPhrase(s)) && |StatusPhrase(s)| <= 34
  {
    hide OneLine, PhraseBelow300, PhraseFrom300, PhraseFrom400, PhraseFrom408, PhraseFrom416, PhraseFrom430, PhraseFrom437, PhraseFrom480, PhraseFrom486, PhraseFrom500, PhraseFrom600;
    if s < 9 {
      PhraseBelow300Ok(s);
    } else if s < 14 {
      PhraseFrom300Ok(s);
    } else if s < 22 {
      PhraseFrom400Ok(s);
    } else if s < 30 {
      PhraseFrom408Ok(s);
    } else if s < 38 {
      PhraseFrom416Ok(s);
    } else if s < 42 {
      PhraseFrom430Ok(s);
    } else if s < 45 {
      PhraseFrom437Ok(s);
    } else if s < 52 {
      PhraseFrom480Ok(s);
    } else if s < 59 {
      PhraseFrom486Ok(s);
    } else if s < 67 {
      PhraseFrom500Ok(s);
    } else {
      PhraseFrom600Ok(s);
    }
  }

  lemma CodeBelow300Up(s: Status, t: Status)
    requires 0 <= s <= t < 9
    ensures 100 <= CodeBelow300(s) <= CodeBelow300(t) < 300 && (s < t ==> CodeBelow300(s) < CodeBelow300(t))
  {
  }

  lemma CodeFrom300Up(s: Status, t: Status)
    requires 9 <= s <= t < 14
    ensures 300 <= CodeFrom300(s) <= CodeFrom300(t) < 400 && (s < t ==> CodeFrom300(s) < CodeFrom300(t))
  {
  }

  lemma CodeFrom400Up(s: Status, t: Status)
    requires 14 <= s <= t < 22
    ensures 400 <= CodeFrom400(s) <= CodeFrom400(t) < 408 && (s < t ==> CodeFrom400(s) < CodeFrom400(t))
  {
  }

  lemma CodeFrom408Up(s: Status, t: Status)
    requires 22 <= s <= t < 30
    ensures 408 <= CodeFrom408(s) <= CodeFrom408(t) < 416 && (s < t ==> CodeFrom408(s) < CodeFrom408(t))
  {
  }

  lemma CodeFrom416Up(s: Status, t: Status)
    requires 30 <= s <= t < 38
    ensures 416 <= CodeFrom416(s) <= CodeFrom416(t) < 429 && (s < t ==> CodeFrom416(s) < CodeFrom416(t))
  {
  }

  lemma CodeFrom430Up(s: Status, t: Status)
    requires 38 <= s <= t < 42
    ensures 429 <= CodeFrom430(s) <= CodeFrom430(t) < 437 && (s < t ==> CodeFrom430(s) < CodeFrom430(t))
  {
  }

  lemma CodeFrom437Up(s: Status, t: Status)
    requires 42 <= s <= t < 45
    ensures 437 <= CodeFrom437(s) <= CodeFrom437(t) < 470 && (s < t ==> CodeFrom437(s) < CodeFrom437(t))
  {
  }

  lemma CodeFrom480Up(s: Status, t: Status)
    requires 45 <= s <= t < 52
    ensures 470 <= CodeFrom480(s) <= CodeFrom480(t) < 486 && (s < t ==> CodeFrom480(s) < CodeFrom480(t))
  {
  }

  lemma CodeFrom486Up(s: Status, t: Status)
    requires 52 <= s <= t < 59
    ensures 486 <= CodeFrom486(s) <= CodeFrom486(t) < 500 && (s < t ==> CodeFrom486(s) < CodeFrom486(t))
  {
  }

  lemma CodeFrom500Up(s: Status, t: Status)
    requires 59 <= s <= t < 67
    ensures 500 <= CodeFrom500(s) <= CodeFrom500(t) < 600 && (s < t ==> CodeFrom500(s) < CodeFrom500(t))
  {
  }

  lemma CodeFrom600Up(s: Status, t: Status)
    requires 67 <= s <= t < 71
    ensures 600 <= CodeFrom600(s) <= CodeFrom600(t) < 1000 && (s < t ==> CodeFrom600(s) < CodeFrom600(t))
  {
  }

  /** The chunk of the table that a place is in. */
  lemma Chunk(s: Status)
    ensures 100 <= StatusCode(s) < 1000
    ensures s < 9 ==> StatusCode(s) < 300
    ensures s < 14 ==> StatusCode(s) < 400
    ensures s < 22 ==> StatusCode(s) < 408
    ensures s < 30 ==> StatusCode(s) < 416
    ensures s < 38 ==> StatusCode(s) < 429
    ensures s < 42 ==> StatusCode(s) < 437
    ensures s < 45 ==> StatusCode(s) < 470
    ensures s < 52 ==> StatusCode(s) < 486
    ensures s < 59 ==> StatusCode(s) < 500
    ensures s < 67 ==> StatusCode(s) < 600
    ensures s >= 9 ==> StatusCode(s) >= 300
    ensures s >= 14 ==> StatusCode(s) >= 400
    ensures s >= 22 ==> StatusCode(s) >= 408
    ensures s >= 30 ==> StatusCode(s) >= 416
    ensures s >= 38 ==> StatusCode(s) >= 429
    ensures s >= 42 ==> StatusCode(s) >= 437
    ensures s >= 45 ==> StatusCode(s) >= 470
    ensures s >= 52 ==> StatusCode(s) >= 486
    ensures s >= 59 ==> StatusCode(s) >= 500
    ensures s >= 67 ==> StatusCode(s) >= 600
  {
    hide CodeBelow300, CodeFrom300, CodeFrom400, CodeFrom408, CodeFrom416, CodeFrom430, CodeFrom437, CodeFrom480, CodeFrom486, CodeFrom500, CodeFrom600;
    if s < 9 {
      CodeBelow300Up(s, s);
    } else if s < 14 {
      CodeFrom300Up(s, s);
    } else if s < 22 {
      CodeFrom400Up(s, s);
    } else if s < 30 {
      CodeFrom408Up(s, s);
    } else if s < 38 {
      CodeFrom416Up(s, s);
    } else if s < 42 {
      CodeFrom430Up(s, s);
    } else if s < 45 {
      CodeFrom437Up(s, s);
    } else if s < 52 {
      CodeFrom480Up(s, s);
    } else if s < 59 {
      CodeFrom486Up(s, s);
    } else if s < 67 {
      CodeFrom500Up(s, s);
    } else {
      CodeFrom600Up(s, s);
    }
  }

  /** The table is in ascending order, so no code occurs twice. */
  lemma CodesAscend(s: Status, t: Status)
    requires s < t
    ensures StatusCode(s) < StatusCode(t)
  {
    hide CodeBelow300, CodeFrom300, CodeFrom400, CodeFrom408, CodeFrom416, CodeFrom430, CodeFrom437, CodeFrom480, CodeFrom486, CodeFrom500, CodeFrom600;
    Chunk(s);
    Chunk(t);
    if t < 9 && s >= 0 {
      CodeBelow300Up(s, t);
    } else if t < 14 && s >= 9 {
      CodeFrom300Up(s, t);
    } else if t < 22 && s >= 14 {
      CodeFrom400Up(s, t);
    } else if t < 30 && s >= 22 {
      CodeFrom408Up(s, t);
    } else if t < 38 && s >= 30 {
      CodeFrom416Up(s, t);
    } else if t < 42 && s >= 38 {
      CodeFrom430Up(s, t);
    } else if t < 45 && s >= 42 {
      CodeFrom437Up(s, t);
    } else if t < 52 && s >= 45 {
      CodeFrom480Up(s, t);
    } else if t < 59 && s >= 52 {
      CodeFrom486Up(s, t);
    } else if t < 67 && s >= 59 {
      CodeFrom500Up(s, t);
    } else if t < 71 && s >= 67 {
      CodeFrom600Up(s, t);
    }
  }

  /** The place of a status code in the table, by the loop of the status-line parser. */
  method FindStatus(code: int) returns (s: Option<Status>)
    ensures s == StatusOf(code)
    ensures s.Some? ==> StatusCode(s.value) == code && forall j: Status :: j < s.value ==> StatusCode(j) != code
    ensures s == None ==> forall j: Status :: StatusCode(j) != code
  {
    hide StatusCode;
    var i := 0;
    while i < 71
      invariant i <= 71 && StatusOf(code) == StatusFrom(code, i)
      invariant forall j: Status :: j < i ==> StatusCode(j) != code
    {
      if code == StatusCode(i) {
        return Some(i);
      }
      i := i + 1;
    }
    s := None;
  }

  function StatusOf(code: int): Option<Status> {
    StatusFrom(code, 0)
  }

  function StatusFrom(code: int, i: nat): Option<Status>
    requires i <= 71
    decreases 71 - i
  {
    if i == 71 then None else if code == StatusCode(i) then Some(i) else StatusFrom(code, i + 1)
  }

  lemma {:induction false} StatusFound(s: Status, i: nat)
    requires i <= s
    ensures StatusFrom(StatusCode(s), i) == Some(s)
    decreases s - i
  {
    hide StatusCode;
    if i < s {
      CodesAscend(i, s);
      StatusFound(s, i + 1);
    }
  }
}
