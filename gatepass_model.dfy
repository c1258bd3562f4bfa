/** The gatepass document: its schema, its security code and its pre-save hook
    (models/Gatepass.js). */
module GatepassModel {
  import opened Wrappers
  import opened Users

  /** Instants in milliseconds since the epoch, the number a JavaScript Date
      compares by. */
  type Time = int

  // ---------------------------------------------------------------------------
  // Status: the schema's string enum and its default
  // ---------------------------------------------------------------------------

  datatype Status = Pending | Approved | Rejected | Verified | Expired

  /** The string the schema stores for a status. */
  function StatusName(s: Status): string {
    match s
    case Pending => "pending"
    case Approved => "approved"
    case Rejected => "rejected"
    case Verified => "verified"
    case Expired => "expired"
  }

  /** The schema's enum validator: exactly five strings are accepted, and each
      names the status it is parsed to. */
  function ParseStatus(x: string): (r: Option<Status>)
    ensures r.Some? <==> x in ["pending", "approved", "rejected", "verified", "expired"]
    ensures r.Some? ==> StatusName(r.value) == x
  {
    if x == "pending" then Some(Pending)
    else if x == "approved" then Some(Approved)
    else if x == "rejected" then Some(Rejected)
    else if x == "verified" then Some(Verified)
    else if x == "expired" then Some(Expired)
    else None
  }

  /** Every status survives a trip through its stored string. */
  lemma StatusRoundTrip(s: Status)
    ensures ParseStatus(StatusName(s)) == Some(s)
  {
    match s
    case Pending =>
    case Approved =>
    case Rejected =>
    case Verified =>
    case Expired =>
  }

  // ---------------------------------------------------------------------------
  // Trimming, as the schema's `trim: true` and the validator's trim() do
  // ---------------------------------------------------------------------------

  /** The characters String.prototype.trim removes: the ECMAScript white space
      (tab, vertical tab, form feed, the byte-order mark and the Unicode space
      separators) and the line terminators. */
  predicate IsSpace(c: char) {
    || c == '\t' || c == '\U{000B}' || c == '\U{000C}' || c == '\U{FEFF}'
    || c == ' ' || c == '\U{00A0}' || c == '\U{1680}' || '\U{2000}' <= c <= '\U{200A}'
    || c == '\U{202F}' || c == '\U{205F}' || c == '\U{3000}'
    || c == '\n' || c == '\r' || c == '\U{2028}' || c == '\U{2029}'
  }

  /** The number of white-space characters at the front of s. */
  function LeadingSpaces(s: string): (n: nat)
    ensures n <= |s|
    ensures forall k :: 0 <= k < n ==> IsSpace(s[k])
    ensures n < |s| ==> !IsSpace(s[n])
  {
    if s != [] && IsSpace(s[0]) then 1 + LeadingSpaces(s[1..]) else 0
  }

  /** The number of white-space characters at the end of s. */
  function TrailingSpaces(s: string): (n: nat)
    ensures n <= |s|
    ensures forall k :: |s| - n <= k < |s| ==> IsSpace(s[k])
    ensures n < |s| ==> !IsSpace(s[|s| - 1 - n])
  {
    if s != [] && IsSpace(s[|s| - 1]) then 1 + TrailingSpaces(s[..|s| - 1]) else 0
  }

  /** s without its leading and trailing white space: the slice of s that starts
      after its leading white space, neither starts nor ends with white space,
      and is followed by white space only. */
  function Trim(s: string): (r: string)
    ensures r == [] || (!IsSpace(r[0]) && !IsSpace(r[|r| - 1]))
    ensures LeadingSpaces(s) + |r| <= |s|
    ensures r == s[LeadingSpaces(s)..LeadingSpaces(s) + |r|]
    ensures forall k :: LeadingSpaces(s) + |r| <= k < |s| ==> IsSpace(s[k])
  {
    var i := LeadingSpaces(s);
    var t := s[i..];
    var r := t[..|t| - TrailingSpaces(t)];
    assert r == s[i..i + |r|];
    r
  }

  /** Trimming twice is trimming once, so the validator's trim() followed by the
      schema's trim stores the same purpose as either alone. */
  lemma TrimIdempotent(s: string)
    ensures Trim(Trim(s)) == Trim(s)
  {
    var t := Trim(s);
    assert LeadingSpaces(t) == 0;
    assert TrailingSpaces(t) == 0;
  }

  /** A string of white space only trims to the empty string. */
  lemma TrimBlank(s: string)
    requires forall k :: 0 <= k < |s| ==> IsSpace(s[k])
    ensures Trim(s) == []
  {
  }

  // ---------------------------------------------------------------------------
  // The security code: Math.random().toString(36).substring(2, 8).toUpperCase()
  // ---------------------------------------------------------------------------

  predicate IsBase36Digit(c: char) { '0' <= c <= '9' || 'a' <= c <= 'z' }

  /** The characters a security code is made of: [0-9A-Z]. */
  predicate IsCodeChar(c: char) { '0' <= c <= '9' || 'A' <= c <= 'Z' }

  /** What Number.prototype.toString(36) gives for a value of Math.random(),
      which lies in [0, 1): "0" for zero, otherwise "0." and lower-case base-36
      digits. The random number and its rendering are not modelled; the
      rendering is an input. */
  predicate IsBase36Fraction(raw: string) {
    raw == "0"
    || (|raw| > 2 && raw[0] == '0' && raw[1] == '.'
        && forall k :: 2 <= k < |raw| ==> IsBase36Digit(raw[k]))
  }

  function Clamp(x: int, len: nat): (y: nat)
    ensures y <= len
    ensures 0 <= x <= len ==> y == x
  {
    if x < 0 then 0 else if x > len then len else x
  }

  /** String.prototype.substring: both ends are clamped to [0, |s|], and
      swapped when the start lies after the end. */
  function Substring(s: string, start: int, end: int): (r: string)
    ensures |r| <= |s|
    ensures start <= end ==> |r| == Clamp(end, |s|) - Clamp(start, |s|)
    ensures start <= end ==> forall k :: 0 <= k < |r| ==> r[k] == s[Clamp(start, |s|) + k]
  {
    var a := Clamp(start, |s|);
    var b := Clamp(end, |s|);
    if a <= b then s[a..b] else s[b..a]
  }

  /** String.prototype.toUpperCase on one character, for the ASCII letters. */
  function UpperChar(c: char): (u: char)
    ensures 'a' <= c <= 'z' ==> 'A' <= u <= 'Z' && u as int == c as int - 32
    ensures !('a' <= c <= 'z') ==> u == c
  {
    if 'a' <= c <= 'z' then (c as int - 32) as char else c
  }

  function ToUpper(s: string): (r: string)
    ensures |r| == |s|
    ensures forall k :: 0 <= k < |s| ==> r[k] == UpperChar(s[k])
  {
    if s == [] then [] else [UpperChar(s[0])] + ToUpper(s[1..])
  }

  /** The code generateSecurityCode derives from the rendering of the random
      number: at most six characters, exactly six when the rendering has at
      least six digits, and all of them in [0-9A-Z]. */
  function CodeFromRendering(raw: string): (code: string)
    ensures |code| <= 6
    ensures |raw| >= 8 ==> |code| == 6
    ensures IsBase36Fraction(raw) ==> forall k :: 0 <= k < |code| ==> IsCodeChar(code[k])
  {
    ToUpper(Substring(raw, 2, 8))
  }

  /** The code is not always six characters long: Math.random() may return 0.5,
      which renders as "0.i", and 0, which renders as "0". */
  lemma CodeMayBeShort()
    ensures IsBase36Fraction("0.i") && CodeFromRendering("0.i") == "I"
    ensures IsBase36Fraction("0") && CodeFromRendering("0") == ""
  {
    assert Substring("0.i", 2, 8) == "i";
    assert Substring("0", 2, 8) == "";
  }

  // ---------------------------------------------------------------------------
  // The document as a value
  // ---------------------------------------------------------------------------

  /** The fields of one gatepass document. Optional fields the schema does not
      default are None until a handler sets them. */
  datatype Pass = Pass(
    id: ObjectId,
    student: ObjectId,
    faculty: ObjectId,
    purpose: string,
    outTime: Time,
    inTime: Time,
    status: Status,
    securityCode: Option<string>,
    rejectionReason: Option<string>,
    verifiedBy: Option<ObjectId>,
    verifiedAt: Option<Time>,
    createdAt: Time)
  {
    /** isExpired: the current time lies strictly after the declared return time. */
    predicate IsExpired(now: Time) {
      now > inTime
    }

    /** The document after the pre-save hook has run at time now: the hook
        changes nothing but the status, changes it exactly when the pass is
        approved and expired, and then only to expired. */
    function Saved(now: Time): (r: Pass)
      ensures r == this.(status := r.status)
      ensures r.status != status <==> status == Approved && IsExpired(now)
      ensures r.status != status ==> r.status == Expired
    {
      if IsExpired(now) && status == Approved then this.(status := Expired) else this
    }
  }

  /** A document as `new Gatepass({...})` builds it: the schema trims purpose,
      status defaults to pending, createdAt to the current time, and no other
      optional field is set. Such a document is left as it is by the save hook. */
  function NewPass(id: ObjectId, student: ObjectId, faculty: ObjectId, purpose: string,
                   outTime: Time, inTime: Time, now: Time): (p: Pass)
    ensures p.status == Pending && p.securityCode.None? && p.rejectionReason.None?
    ensures p.verifiedBy.None? && p.verifiedAt.None? && p.createdAt == now
    ensures p.id == id && p.student == student && p.faculty == faculty
    ensures p.purpose == Trim(purpose) && p.outTime == outTime && p.inTime == inTime
    ensures p.Saved(now) == p
  {
    Pass(id, student, faculty, Trim(purpose), outTime, inTime, Pending, None, None, None, None, now)
  }

  /** Expiry is strict: a pass is not expired at its return time itself, and is
      expired at every later instant. */
  lemma ExpiryIsStrict(p: Pass, now: Time)
    ensures p.IsExpired(now) <==> p.inTime < now
    ensures !p.IsExpired(p.inTime)
  {
  }

  /** Once expired, a pass stays expired as time goes on. */
  lemma ExpiryIsPermanent(p: Pass, t: Time, t': Time)
    requires p.IsExpired(t) && t <= t'
    ensures p.IsExpired(t')
  {
  }

  /** Running the save hook twice at the same time is running it once. */
  lemma SavedIdempotent(p: Pass, now: Time)
    ensures p.Saved(now).Saved(now) == p.Saved(now)
  {
  }

  // ---------------------------------------------------------------------------
  // The document as a mutable object
  // ---------------------------------------------------------------------------

  /** A loaded gatepass document whose fields the route handlers assign in place. */
  class Gatepass {
    const id: ObjectId
    var student: ObjectId
    var faculty: ObjectId
    var purpose: string
    var outTime: Time
    var inTime: Time
    var status: Status
    var securityCode: Option<string>
    var rejectionReason: Option<string>
    var verifiedBy: Option<ObjectId>
    var verifiedAt: Option<Time>
    var createdAt: Time

    /** The document's current field values. */
    function Value(): Pass
      reads this
    {
      Pass(id, student, faculty, purpose, outTime, inTime, status,
           securityCode, rejectionReason, verifiedBy, verifiedAt, createdAt)
    }

    constructor (id: ObjectId, student: ObjectId, faculty: ObjectId, purpose: string,
                 outTime: Time, inTime: Time, now: Time)
      ensures Value() == NewPass(id, student, faculty, purpose, outTime, inTime, now)
      ensures Value().status == Pending
    {
      this.id := id;
      this.student := student;
      this.faculty := faculty;
      this.purpose := Trim(purpose);
      this.outTime := outTime;
      this.inTime := inTime;
      this.status := Pending;
      this.securityCode := None;
      this.rejectionReason := None;
      this.verifiedBy := None;
      this.verifiedAt := None;
      this.createdAt := now;
    }

    /** generateSecurityCode: stores the code it returns, and changes nothing else.
        raw is the base-36 rendering of the random number. */
    method GenerateSecurityCode(raw: string) returns (code: string)
      modifies this
      ensures code == CodeFromRendering(raw)
      ensures |code| <= 6
      ensures IsBase36Fraction(raw) ==> forall k :: 0 <= k < |code| ==> IsCodeChar(code[k])
      ensures Value() == old(Value()).(securityCode := Some(code))
    {
      code := CodeFromRendering(raw);
      securityCode := Some(code);
    }

    /** The pre-save hook, run by every save at time now. */
    method PreSave(now: Time)
      modifies this
      ensures Value() == old(Value()).Saved(now)
    {
      if Value().IsExpired(now) && status == Approved {
        status := Expired;
      }
    }
  }
}
