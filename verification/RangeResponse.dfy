module RangeResponses {
  // Which answers to a download request may be written to the partial file (RFC 9110, sections 14.4 and 15.3.7).

  import opened Common
  import opened Decimal

  datatype RangeResponse = AcceptBody | AlreadyComplete | Reject

  /** A number and nothing else. */
  function ParseUnsigned(value: string): Option<nat> {
    if value == [] then None
    else
      match StrToUll(CString(value))
      case Some((n, rest)) => if rest == [] then Some(n) else None
      case None => None
  }

  /** The position of the first `c`. */
  function PositionOf(s: string, c: char): (r: Option<nat>)
    ensures r.Some? ==> r.value < |s| && s[r.value] == c && c !in s[..r.value]
    ensures r.None? ==> c !in s
  {
    if s == [] then None
    else if s[0] == c then Some(0)
    else match PositionOf(s[1..], c) case None => None case Some(i) => Some(i + 1)
  }

  const PREFIX := "bytes "

  /** `first-last/total`. */
  function ParseRange(value: string): Option<(nat, nat, nat)> {
    match (PositionOf(value, '-'), PositionOf(value, '/'))
    case (Some(dash), Some(slash)) =>
      if dash >= slash then None
      else
        (match (ParseUnsigned(value[..dash]), ParseUnsigned(value[dash + 1..slash]), ParseUnsigned(value[slash + 1..]))
         case (Some(first), Some(last), Some(total)) => Some((first, last, total))
         case _ => None)
    case _ => None
  }

  function ValidateRangeResponse(status: int, contentRange: string, resumeAt: nat, expectedSize: nat): RangeResponse {
    if status == 416 then (if resumeAt == expectedSize then AlreadyComplete else Reject)
    else if resumeAt == 0 then (if status == 200 then AcceptBody else Reject)
    else if status != 206 || !(PREFIX <= contentRange) then Reject
    else
      match ParseRange(contentRange[6..])
      case Some((first, last, total)) =>
        if first != resumeAt || last < first || total != expectedSize || last >= total then Reject else AcceptBody
      case None => Reject
  }

  /** The header of an honest partial response. */
  function ContentRange(first: nat, last: nat, total: nat): string {
    PREFIX + Print(first) + "-" + Print(last) + "/" + Print(total)
  }

  lemma {:induction false} PrintedIsCString(s: string)
    requires forall i :: 0 <= i < |s| ==> IsDigit(s[i])
    ensures CString(s) == s
    decreases |s|
  {
    if s != [] { PrintedIsCString(s[1..]); }
  }

  lemma ParsePrinted(n: nat)
    requires n <= U64_MAX
    ensures ParseUnsigned(Print(n)) == Some(n)
  {
    PrintedIsCString(Print(n));
    ReadBack(n, []);
    assert Print(n) + [] == Print(n);
  }

  lemma {:induction false} FindAfter(a: string, c: char, b: string)
    requires c !in a
    ensures PositionOf(a + [c] + b, c) == Some(|a|)
    decreases |a|
  {
    if a == [] {
      assert a + [c] + b == [c] + b;
    } else {
      assert (a + [c] + b)[1..] == a[1..] + [c] + b;
      FindAfter(a[1..], c, b);
    }
  }

  lemma {:induction false} ParsePrintedRange(f: string, l: string, t: string)
    requires '-' !in f && '/' !in f && '/' !in l
    ensures ParseRange(f + "-" + l + "/" + t) ==
            match (ParseUnsigned(f), ParseUnsigned(l), ParseUnsigned(t))
            case (Some(first), Some(last), Some(total)) => Some((first, last, total))
            case _ => None
  {
    var value := f + "-" + l + "/" + t;
    assert value == f + ['-'] + (l + "/" + t) == (f + "-" + l) + ['/'] + t;
    FindAfter(f, '-', l + "/" + t);
    FindAfter(f + "-" + l, '/', t);
    assert value[..|f|] == f;
    assert value[|f| + 1..|f| + 1 + |l|] == l;
    assert value[|f| + 1 + |l| + 1..] == t;
  }

  /** An honest partial response is accepted exactly when it continues the file and ends inside it. */
  lemma {:induction false} HonestPartial(first: nat, last: nat, total: nat, resumeAt: nat, expectedSize: nat)
    requires first <= U64_MAX && last <= U64_MAX && total <= U64_MAX && resumeAt > 0
    ensures ValidateRangeResponse(206, ContentRange(first, last, total), resumeAt, expectedSize) == AcceptBody
            <==> first == resumeAt && first <= last < total == expectedSize
  {
    var value := Print(first) + "-" + Print(last) + "/" + Print(total);
    assert ContentRange(first, last, total) == PREFIX + value;
    assert (PREFIX + value)[6..] == value;
    ParsePrintedRange(Print(first), Print(last), Print(total));
    ParsePrinted(first);
    ParsePrinted(last);
    ParsePrinted(total);
  }

  /** Nothing but a full answer to a full request, or a matching partial answer to a resumed one, opens the body. */
  lemma AcceptedMeans(status: int, contentRange: string, resumeAt: nat, expectedSize: nat)
    requires ValidateRangeResponse(status, contentRange, resumeAt, expectedSize) == AcceptBody
    ensures if resumeAt == 0 then status == 200 else status == 206 && resumeAt < expectedSize
  {
  }
}
