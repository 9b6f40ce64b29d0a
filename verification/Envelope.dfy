/** The bracketed mesh header: printed by the sender, matched and validated by the receiver. */
module Envelope {
  import opened Common

  datatype Envelope = Envelope(
    sender: string,
    recipient: string,
    msgId: string,
    session: Option<string>,
    fromSession: Option<string>,
    action: string,
    reply: string,
    ref: Option<string>,
    body: string)

  // ---------------------------------------------------------------------------------
  // Names
  // ---------------------------------------------------------------------------------

  const DOTTED_I: char := '\U{0130}'
  const COMBINING_DOT: char := '\U{0307}'
  const DOTLESS_I: char := '\U{0131}'
  const LONG_S: char := '\U{017F}'
  const KELVIN: char := '\U{212A}'

  /** What the class a-z0-9 matches when case is ignored: four letters beyond ASCII fold into it. */
  predicate IsNameStart(c: char) {
    IsAsciiLetter(c) || IsDigit(c) || c in {DOTTED_I, DOTLESS_I, LONG_S, KELVIN}
  }

  predicate IsNameChar(c: char) { IsNameStart(c) || c in {'_', '.', '-'} }

  function LowerChar(c: char): (r: string)
    ensures 1 <= |r| <= 2
  {
    if 'A' <= c <= 'Z' then [(c as int - 'A' as int + 'a' as int) as char]
    else if c == DOTTED_I then ['i', COMBINING_DOT]
    else if c == KELVIN then "k"
    else [c]
  }

  function Lower(s: string): string {
    if s == "" then "" else LowerChar(s[0]) + Lower(s[1..])
  }

  function LStrip(s: string): string {
    if s != "" && IsSpace(s[0]) then LStrip(s[1..]) else s
  }

  function RStrip(s: string): string {
    if s != "" && IsSpace(s[|s| - 1]) then RStrip(s[..|s| - 1]) else s
  }

  function Strip(s: string): string { RStrip(LStrip(s)) }

  predicate HasDoubleDot(s: string) {
    exists i | 0 <= i < |s| - 1 :: s[i] == '.' && s[i + 1] == '.'
  }

  predicate WellNamed(s: string) {
    s != "" && !HasDoubleDot(s) && IsNameStart(s[0]) && forall c | c in s :: IsNameChar(c)
  }

  /** The lowercased, stripped name, if it is one. */
  function ValidateName(raw: string): Option<string> {
    var name := Strip(raw);
    if WellNamed(name) then Some(Lower(name)) else None
  }

  // ---------------------------------------------------------------------------------
  // Printing
  // ---------------------------------------------------------------------------------

  function Field(name: string, value: string): string { "[" + name + ":" + value + "]" }

  function OptField(name: string, value: Option<string>): string {
    if value.Some? then Field(name, value.value) else ""
  }

  // The message from each field on.
  function FromRef(e: Envelope, m: string): string { OptField("ref", e.ref) + (" " + m) }
  function FromReply(e: Envelope, m: string): string { Field("reply", e.reply) + FromRef(e, m) }
  function FromAction(e: Envelope, m: string): string { Field("action", e.action) + FromReply(e, m) }
  function FromFromSession(e: Envelope, m: string): string { OptField("from_session", e.fromSession) + FromAction(e, m) }
  function FromSession(e: Envelope, m: string): string { OptField("session", e.session) + FromFromSession(e, m) }
  function FromId(e: Envelope, m: string): string { Field("id", e.msgId) + FromSession(e, m) }
  function FromTo(e: Envelope, m: string): string { Field("to", e.recipient) + FromId(e, m) }
  function FromSender(e: Envelope, m: string): string { Field("from", e.sender) + FromTo(e, m) }
  function FromVersion(e: Envelope, m: string): string { Field("v", "1") + FromSender(e, m) }

  /** The padded message. */
  function Print(e: Envelope, m: string): string { "[mesh]" + FromVersion(e, m) }

  /** Appending one more field to a header leaves the whole message as it was. */
  method Append(header: string, field: string, ghost rest: string) returns (longer: string)
    ensures longer == header + field
    ensures longer + rest == header + (field + rest)
  {
    longer := header + field;
    Regroup(header, field, rest);
  }

  method PrintRequired(e: Envelope, ghost m: string) returns (header: string)
    ensures header + FromSession(e, m) == Print(e, m)
  {
    header := Append("[mesh]", Field("v", "1"), FromSender(e, m));
    header := Append(header, Field("from", e.sender), FromTo(e, m));
    header := Append(header, Field("to", e.recipient), FromId(e, m));
    header := Append(header, Field("id", e.msgId), FromSession(e, m));
  }

  method PrintOptional(e: Envelope, required: string, ghost m: string) returns (header: string)
    ensures header + (" " + m) == required + FromSession(e, m)
  {
    header := Append(required, OptField("session", e.session), FromFromSession(e, m));
    header := Append(header, OptField("from_session", e.fromSession), FromAction(e, m));
    header := Append(header, Field("action", e.action), FromReply(e, m));
    header := Append(header, Field("reply", e.reply), FromRef(e, m));
    header := Append(header, OptField("ref", e.ref), " " + m);
  }

  method PrintMessage(e: Envelope, message: string) returns (padded: string)
    ensures padded == Print(e, message)
  {
    var required := PrintRequired(e, message);
    var header := PrintOptional(e, required, message);
    padded := header + (" " + message);
  }

  // ---------------------------------------------------------------------------------
  // Matching
  // ---------------------------------------------------------------------------------

  /** The first closing bracket at or after `from`, or the end. */
  function Closing(s: string, from: nat): (i: nat)
    requires from <= |s|
    ensures from <= i <= |s| && (i < |s| ==> s[i] == ']')
    ensures forall k | from <= k < i :: s[k] != ']'
    decreases |s| - from
  {
    if from == |s| || s[from] == ']' then from else Closing(s, from + 1)
  }

  /** A required field at the start: its value (non-empty, up to the bracket) and what follows. */
  function Take(s: string, name: string): Option<(string, string)> {
    var opening := "[" + name + ":";
    if !(opening <= s) then None
    else
      var end := Closing(s, |opening|);
      if end == |opening| || end == |s| then None
      else Some((s[|opening|..end], s[end + 1..]))
  }

  /** An optional field: skipped if it is not there. Nothing after it can make the pattern give
      back a field it has taken, since no other field starts with the same bracket. */
  function TakeOpt(s: string, name: string): (Option<string>, string) {
    var t := Take(s, name);
    if t.Some? then (Some(t.value.0), t.value.1) else (None, s)
  }

  datatype Groups = Groups(
    sender: string, recipient: string, msgId: string, session: Option<string>, fromSession: Option<string>,
    action: Option<string>, reply: Option<string>, ref: Option<string>, rest: string)

  function Match(text: string): Option<Groups> {
    var s := LStrip(text);
    if "[mesh]" <= s then MatchFields(TakeOpt(s[6..], "v").1) else None
  }

  function MatchFields(s: string): Option<Groups> {
    var sender := Take(s, "from");
    if sender.None? then None
    else
      var recipient := Take(sender.value.1, "to");
      if recipient.None? then None
      else
        var id := Take(recipient.value.1, "id");
        if id.None? then None
        else Some(MatchOptional(sender.value.0, recipient.value.0, id.value.0, id.value.1))
  }

  function MatchOptional(sender: string, recipient: string, id: string, s: string): Groups {
    var (session, s1) := TakeOpt(s, "session");
    var (fromSession, s2) := TakeOpt(s1, "from_session");
    var (action, s3) := TakeOpt(s2, "action");
    var (reply, s4) := TakeOpt(s3, "reply");
    var (ref, s5) := TakeOpt(s4, "ref");
    Groups(sender, recipient, id, session, fromSession, action, reply, ref, LStrip(s5))
  }

  predicate ValidOptToken(t: Option<string>) { t.None? || ValidToken(t.value) }

  predicate ValidAction(a: string) { a == "do" || a == "info" }

  predicate ValidReply(r: string) { r == "yes" || r == "no" || r == "end" }

  /** The receiver's whole reading of a message; None is its 400 answer. */
  function Parse(text: string): Option<Envelope> {
    var g := Match(text);
    if g.None? then None
    else
      var sender := ValidateName(g.value.sender);
      var recipient := ValidateName(g.value.recipient);
      var action := if g.value.action.Some? then g.value.action.value else "info";
      var reply := if g.value.reply.Some? then g.value.reply.value else "no";
      if sender.None? || recipient.None? then None
      else if !ValidOptToken(g.value.session) || !ValidOptToken(g.value.fromSession) then None
      else if !ValidAction(action) || !ValidReply(reply) then None
      else if !ValidToken(g.value.msgId) || !ValidOptToken(g.value.ref) then None
      else Some(Envelope(sender.value, recipient.value, g.value.msgId, g.value.session, g.value.fromSession,
                         action, reply, g.value.ref, LStrip(g.value.rest)))
  }

  // ---------------------------------------------------------------------------------
  // Reading back what was printed
  // ---------------------------------------------------------------------------------

  predicate Plain(v: string) { v != "" && ']' !in v }

  lemma TakePrinted(name: string, value: string, rest: string)
    requires Plain(value)
    ensures Take(Field(name, value) + rest, name) == Some((value, rest))
  {
    var opening := "[" + name + ":";
    var s := Field(name, value) + rest;
    assert s == opening + value + "]" + rest;
    assert s[..|opening|] == opening;
    var end := Closing(s, |opening|);
    assert s[|opening| + |value|] == ']';
    assert forall k | |opening| <= k < |opening| + |value| :: s[k] == value[k - |opening|];
    assert end == |opening| + |value|;
    assert s[|opening|..end] == value && s[end + 1..] == rest;
  }

  /** A field of another name is not taken. */
  lemma SkipsOther(s: string, name: string, k: nat)
    requires k < |"[" + name + ":"| && (k < |s| ==> s[k] != ("[" + name + ":")[k])
    ensures TakeOpt(s, name) == (None, s)
  {
  }

  /** Field by field, the optional part reads back. */
  lemma OptionalPartReadsBack(e: Envelope, m: string)
    requires Wellformed(e)
    ensures MatchOptional(e.sender, e.recipient, e.msgId, FromSession(e, m))
            == Groups(e.sender, e.recipient, e.msgId, e.session, e.fromSession, Some(e.action), Some(e.reply), e.ref, LStrip(" " + m))
  {
    TokensArePlain(e);
    SessionReadsBack(e, m);
    FromSessionReadsBack(e, m);
    TakePrinted("action", e.action, FromReply(e, m));
    TakePrinted("reply", e.reply, FromRef(e, m));
    RefReadsBack(e, m);
  }

  lemma SessionReadsBack(e: Envelope, m: string)
    requires e.session.Some? ==> Plain(e.session.value)
    ensures TakeOpt(FromSession(e, m), "session") == (e.session, FromFromSession(e, m))
  {
    var rest := FromFromSession(e, m);
    if e.session.Some? {
      TakePrinted("session", e.session.value, rest);
    } else {
      assert FromSession(e, m) == rest;
      SkipsOther(rest, "session", 1);
    }
  }

  lemma FromSessionReadsBack(e: Envelope, m: string)
    requires e.fromSession.Some? ==> Plain(e.fromSession.value)
    ensures TakeOpt(FromFromSession(e, m), "from_session") == (e.fromSession, FromAction(e, m))
  {
    var rest := FromAction(e, m);
    if e.fromSession.Some? {
      TakePrinted("from_session", e.fromSession.value, rest);
    } else {
      assert FromFromSession(e, m) == rest;
      SkipsOther(rest, "from_session", 1);
    }
  }

  /** The message itself cannot pass for a ref: a blank comes before it. */
  lemma RefReadsBack(e: Envelope, m: string)
    requires e.ref.Some? ==> Plain(e.ref.value)
    ensures TakeOpt(FromRef(e, m), "ref") == (e.ref, " " + m)
  {
    if e.ref.Some? {
      TakePrinted("ref", e.ref.value, " " + m);
    } else {
      assert FromRef(e, m) == " " + m;
      SkipsOther(" " + m, "ref", 0);
    }
  }

  /** What the sender's checks guarantee of the fields besides the names. */
  predicate WellformedFields(e: Envelope) {
    && ValidToken(e.msgId) && ValidOptToken(e.session) && ValidOptToken(e.fromSession) && ValidOptToken(e.ref)
    && ValidAction(e.action) && ValidReply(e.reply)
  }

  /** What the sender's checks guarantee of the fields. */
  predicate Wellformed(e: Envelope) {
    ValidateName(e.sender) == Some(e.sender) && ValidateName(e.recipient) == Some(e.recipient) && WellformedFields(e)
  }

  lemma TokensArePlain(e: Envelope)
    requires Wellformed(e)
    ensures Plain(e.msgId) && Plain(e.action) && Plain(e.reply)
    ensures (e.session.Some? ==> Plain(e.session.value)) && (e.fromSession.Some? ==> Plain(e.fromSession.value))
    ensures e.ref.Some? ==> Plain(e.ref.value)
  {
  }

  /** The printed message matches, whatever is printed as names. */
  lemma PrintedMatches(e: Envelope, m: string)
    requires Plain(e.sender) && Plain(e.recipient) && ValidToken(e.msgId)
    ensures Match(Print(e, m)) == Some(MatchOptional(e.sender, e.recipient, e.msgId, FromSession(e, m)))
  {
    HeadReadsBack(FromVersion(e, m));
    TakePrinted("v", "1", FromSender(e, m));
    FieldsReadBack(e, m);
  }

  lemma HeadReadsBack(rest: string)
    ensures LStrip("[mesh]" + rest) == "[mesh]" + rest
    ensures "[mesh]" <= "[mesh]" + rest && ("[mesh]" + rest)[6..] == rest
  {
    assert !IsSpace(("[mesh]" + rest)[0]);
  }

  lemma FieldsReadBack(e: Envelope, m: string)
    requires Plain(e.sender) && Plain(e.recipient) && ValidToken(e.msgId)
    ensures MatchFields(FromSender(e, m)) == Some(MatchOptional(e.sender, e.recipient, e.msgId, FromSession(e, m)))
  {
    TakePrinted("from", e.sender, FromTo(e, m));
    TakePrinted("to", e.recipient, FromId(e, m));
    TakePrinted("id", e.msgId, FromSession(e, m));
  }

  lemma {:induction false} LStripIdempotent(s: string)
    ensures LStrip(LStrip(s)) == LStrip(s)
  {
    if s != "" && IsSpace(s[0]) {
      LStripIdempotent(s[1..]);
    }
  }

  lemma LStripBlank(m: string)
    ensures LStrip(" " + m) == LStrip(m)
  {
    assert (" " + m)[1..] == m;
  }

  /** Printing then parsing gives the fields back and the message without leading blanks. The
      message is arbitrary, even one that looks like a field. */
  lemma PrintThenParse(e: Envelope, message: string)
    requires Wellformed(e)
    ensures Parse(Print(e, message)) == Some(e.(body := LStrip(message)))
  {
    NamesArePlain(e.sender);
    NamesArePlain(e.recipient);
    PrintedMatches(e, message);
    OptionalPartReadsBack(e, message);
    LStripBlank(message);
    LStripIdempotent(message);
  }

  // ---------------------------------------------------------------------------------
  // Names survive a second reading, with one exception
  // ---------------------------------------------------------------------------------

  lemma {:induction false} StripChars(s: string)
    ensures forall c | c in Strip(s) :: c in s
    ensures forall c | c in s && !IsSpace(c) :: c in Strip(s)
  {
    LStripChars(s);
    RStripChars(LStrip(s));
  }

  lemma {:induction false} LStripChars(s: string)
    ensures forall c | c in LStrip(s) :: c in s
    ensures forall c | c in s && !IsSpace(c) :: c in LStrip(s)
  {
    if s != "" && IsSpace(s[0]) {
      LStripChars(s[1..]);
      assert forall c :: c in s <==> c == s[0] || c in s[1..];
    }
  }

  lemma {:induction false} RStripChars(s: string)
    ensures forall c | c in RStrip(s) :: c in s
    ensures forall c | c in s && !IsSpace(c) :: c in RStrip(s)
  {
    if s != "" && IsSpace(s[|s| - 1]) {
      var init := s[..|s| - 1];
      RStripChars(init);
      assert s == init + [s[|s| - 1]];
      assert forall c :: c in s <==> c == s[|s| - 1] || c in init;
    }
  }

  lemma StripNothing(s: string)
    requires forall c | c in s :: !IsSpace(c)
    ensures Strip(s) == s
  {
    if s != "" {
      assert s[0] in s && s[|s| - 1] in s;
    }
  }

  lemma {:induction false} LowerChars(s: string, c: char)
    ensures c in Lower(s) <==> exists d :: d in s && c in LowerChar(d)
  {
    if s != "" {
      LowerChars(s[1..], c);
      assert forall d :: d in s <==> d == s[0] || d in s[1..];
      assert c in Lower(s) <==> c in LowerChar(s[0]) || c in Lower(s[1..]);
    }
  }

  /** What lowercasing can put into a well-formed name. */
  lemma LowerOfName(s: string)
    requires forall c | c in s :: IsNameChar(c)
    ensures ']' !in Lower(s) && forall c | c in Lower(s) :: !IsSpace(c)
    ensures COMBINING_DOT in Lower(s) <==> DOTTED_I in s
  {
    LowerChars(s, ']');
    LowerChars(s, COMBINING_DOT);
    forall c | c in Lower(s)
      ensures !IsSpace(c)
    {
      LowerChars(s, c);
    }
    if DOTTED_I in s {
      assert COMBINING_DOT in LowerChar(DOTTED_I);
    }
  }

  /** Without a dotted capital I lowercasing works letter by letter, once and for all. */
  lemma {:induction false} LowerLetterwise(s: string)
    requires DOTTED_I !in s
    ensures |Lower(s)| == |s|
    ensures forall i | 0 <= i < |s| :: [Lower(s)[i]] == LowerChar(s[i])
    ensures Lower(Lower(s)) == Lower(s)
  {
    if s != "" {
      LowerLetterwise(s[1..]);
      var l := LowerChar(s[0]);
      assert s[0] in s && |l| == 1 && Lower(s)[1..] == Lower(s[1..]);
      assert LowerChar(l[0]) == l;
    }
  }

  lemma {:induction false} LowerNotEmpty(s: string)
    requires s != ""
    ensures Lower(s) != ""
  {
  }

  lemma NamesArePlain(name: string)
    requires ValidateName(name) == Some(name)
    ensures Plain(name)
  {
    LowerOfName(Strip(name));
    LowerNotEmpty(Strip(name));
  }

  /** A validated name is itself valid, and its own validation, exactly when the raw name had
      no dotted capital I: that letter matches the pattern, but lowers to an i with a combining
      dot, which does not. */
  lemma ValidatedNameIsStable(raw: string)
    requires ValidateName(raw).Some?
    ensures var n := ValidateName(raw).value;
            && Plain(n)
            && (ValidateName(n) == Some(n) <==> DOTTED_I !in raw)
            && (ValidateName(n).None? <==> DOTTED_I in raw)
            && (COMBINING_DOT in n <==> DOTTED_I in raw)
  {
    var s := Strip(raw);
    var n := Lower(s);
    StripChars(raw);
    LowerOfName(s);
    LowerNotEmpty(s);
    StripNothing(n);
    if DOTTED_I !in raw {
      LoweredIsWellNamed(s);
    } else {
      assert COMBINING_DOT in n && !IsNameChar(COMBINING_DOT);
    }
  }

  lemma LoweredIsWellNamed(s: string)
    requires WellNamed(s) && DOTTED_I !in s
    ensures WellNamed(Lower(s)) && Lower(Lower(s)) == Lower(s)
  {
    LowerLetterwise(s);
    var n := Lower(s);
    forall i | 0 <= i < |n|
      ensures IsNameChar(n[i]) && (n[i] == '.' <==> s[i] == '.') && (IsNameStart(s[i]) ==> IsNameStart(n[i]))
    {
      assert s[i] in s && [n[i]] == LowerChar(s[i]);
      LowerCharStaysNamed(s[i], n[i]);
    }
  }

  lemma LowerCharStaysNamed(c: char, l: char)
    requires IsNameChar(c) && c != DOTTED_I && [l] == LowerChar(c)
    ensures IsNameChar(l) && (l == '.' <==> c == '.') && (IsNameStart(c) ==> IsNameStart(l))
  {
    assert l == LowerChar(c)[0];
  }

  /** For a message as the relay prints it, with names it has validated once from raw ones, reading
      gives back the fields and the message if and only if neither raw name has the dotted capital
      I; with one it is refused. */
  lemma PrintRawThenParse(e: Envelope, rawSender: string, rawRecipient: string, message: string)
    requires ValidateName(rawSender) == Some(e.sender) && ValidateName(rawRecipient) == Some(e.recipient)
    requires WellformedFields(e)
    ensures var clean := DOTTED_I !in rawSender && DOTTED_I !in rawRecipient;
            && (Parse(Print(e, message)) == Some(e.(body := LStrip(message))) <==> clean)
            && (Parse(Print(e, message)).None? <==> !clean)
  {
    ValidatedNameIsStable(rawSender);
    ValidatedNameIsStable(rawRecipient);
    if DOTTED_I !in rawSender && DOTTED_I !in rawRecipient {
      PrintThenParse(e, message);
    } else {
      PrintedMatches(e, message);
    }
  }

  /** Every name a match can yield. */
  lemma ParsedFields(text: string)
    requires Parse(text).Some?
    ensures var p := Parse(text).value;
            var g := Match(text).value;
            && ValidateName(g.sender) == Some(p.sender) && ValidateName(g.recipient) == Some(p.recipient)
            && ValidToken(p.msgId) && ValidOptToken(p.session) && ValidOptToken(p.fromSession) && ValidOptToken(p.ref)
            && ValidAction(p.action) && ValidReply(p.reply)
            && LStrip(p.body) == p.body
  {
    LStripIdempotent(Match(text).value.rest);
  }

  /** Printing a parsed message again and parsing that gives the same result, defaults
      included, exactly when neither name on the wire had a dotted capital I; with one, the
      second reading is refused. */
  lemma ParseThenPrintThenParse(text: string)
    requires Parse(text).Some?
    ensures var p := Parse(text).value;
            var g := Match(text).value;
            var clean := DOTTED_I !in g.sender && DOTTED_I !in g.recipient;
            && (Parse(Print(p, p.body)) == Some(p) <==> clean)
            && (Parse(Print(p, p.body)).None? <==> !clean)
  {
    ParsedFields(text);
    var p := Parse(text).value;
    var g := Match(text).value;
    ValidatedNameIsStable(g.sender);
    ValidatedNameIsStable(g.recipient);
    if DOTTED_I !in g.sender && DOTTED_I !in g.recipient {
      PrintThenParse(p, p.body);
    } else {
      PrintedMatches(p, p.body);
    }
  }

  lemma DottedName()
    ensures Plain([DOTTED_I]) && ValidateName([DOTTED_I]) == Some(['i', COMBINING_DOT])
  {
    var i := [DOTTED_I];
    assert forall c | c in i :: c == DOTTED_I && !IsSpace(c);
    StripNothing(i);
    assert i[1..] == "" && Lower(i[1..]) == "";
    assert Lower(i) == ['i', COMBINING_DOT] + "" == ['i', COMBINING_DOT];
    assert WellNamed(i);
  }

  /** A message from such a sender (see DottedName for one) is accepted, and refused when it is
      passed on as it was read. */
  lemma DottedCapitalIDoesNotSurvive(e: Envelope, raw: string, message: string)
    requires Wellformed(e) && Plain(raw) && ValidateName(raw).Some? && DOTTED_I in raw
    ensures var p := Parse(Print(e.(sender := raw), message));
            && p.Some? && p.value.sender == ValidateName(raw).value && p.value.recipient == e.recipient
            && Parse(Print(p.value, p.value.body)).None?
  {
    var sent := e.(sender := raw);
    NamesArePlain(e.recipient);
    PrintedMatches(sent, message);
    OptionalPartReadsBack(e, message);
    assert FromSession(sent, message) == FromSession(e, message);
    ParseThenPrintThenParse(Print(sent, message));
  }

  // ---------------------------------------------------------------------------------
  // Tolerant receive
  // ---------------------------------------------------------------------------------

  /** A header as any peer may write it: of the fields, only the names and the id have to be there. */
  datatype Header = Header(
    version: Option<string>,
    sender: string,
    recipient: string,
    msgId: string,
    session: Option<string>,
    fromSession: Option<string>,
    action: Option<string>,
    reply: Option<string>,
    ref: Option<string>)

  // The text from each of the optional fields on.
  function WithRef(h: Header, rest: string): string { OptField("ref", h.ref) + rest }
  function WithReply(h: Header, rest: string): string { OptField("reply", h.reply) + WithRef(h, rest) }
  function WithAction(h: Header, rest: string): string { OptField("action", h.action) + WithReply(h, rest) }
  function WithFrom(h: Header, rest: string): string { OptField("from_session", h.fromSession) + WithAction(h, rest) }
  function WithSession(h: Header, rest: string): string { OptField("session", h.session) + WithFrom(h, rest) }

  function WithNames(h: Header, rest: string): string {
    Field("from", h.sender) + (Field("to", h.recipient) + (Field("id", h.msgId) + WithSession(h, rest)))
  }

  function Text(h: Header, rest: string): string { "[mesh]" + (OptField("v", h.version) + WithNames(h, rest)) }

  predicate PlainOpt(v: Option<string>) { v.Some? ==> Plain(v.value) }

  predicate PlainHeader(h: Header) {
    && Plain(h.sender) && Plain(h.recipient) && Plain(h.msgId)
    && PlainOpt(h.version) && PlainOpt(h.session) && PlainOpt(h.fromSession)
    && PlainOpt(h.action) && PlainOpt(h.reply) && PlainOpt(h.ref)
  }

  /** No field starts the text, or one whose name starts with one of the letters. */
  predicate Opens(s: string, letters: set<char>) {
    s == "" || s[0] != '[' || (|s| >= 2 && s[1] in letters)
  }

  lemma OptOpens(name: string, value: Option<string>, rest: string, letters: set<char>)
    requires name != "" && name[0] in letters && Opens(rest, letters)
    ensures Opens(OptField(name, value) + rest, letters)
  {
    if value.Some? {
      assert (Field(name, value.value) + rest)[1] == name[0];
    } else {
      assert OptField(name, value) + rest == rest;
    }
  }

  /** An optional field is taken if it is there, and otherwise nothing else is taken for it. */
  lemma TakesItsOwn(name: string, value: Option<string>, rest: string, letters: set<char>)
    requires PlainOpt(value) && name != "" && name[0] !in letters && Opens(rest, letters)
    ensures TakeOpt(OptField(name, value) + rest, name) == (value, rest)
  {
    if value.Some? {
      TakePrinted(name, value.value, rest);
    } else {
      assert OptField(name, value) + rest == rest;
      SkipsOther(rest, name, if rest == "" || rest[0] != '[' then 0 else 1);
    }
  }

  /** The two fields that share a letter. */
  lemma ReplyIsNoRef(h: Header, rest: string)
    requires PlainHeader(h) && (rest == "" || rest[0] != '[')
    ensures TakeOpt(WithReply(h, rest), "reply") == (h.reply, WithRef(h, rest))
  {
    if h.reply.Some? {
      TakePrinted("reply", h.reply.value, WithRef(h, rest));
    } else {
      assert WithReply(h, rest) == WithRef(h, rest);
      if h.ref.Some? {
        assert WithRef(h, rest)[3] == Field("ref", h.ref.value)[3] == 'f';
        SkipsOther(WithRef(h, rest), "reply", 3);
      } else {
        assert WithRef(h, rest) == rest;
        SkipsOther(rest, "reply", 0);
      }
    }
  }

  // Each optional field, taken in its turn: the suffix after it cannot pass for it.
  lemma ReplyOpens(h: Header, rest: string)
    requires rest == "" || rest[0] != '['
    ensures Opens(WithReply(h, rest), {'r'}) && Opens(WithReply(h, rest), {'r', 'a'}) && Opens(WithReply(h, rest), {'r', 'a', 'f'})
  {
    OptOpens("ref", h.ref, rest, {'r'});
    OptOpens("reply", h.reply, WithRef(h, rest), {'r'});
  }

  lemma ActionTaken(h: Header, rest: string)
    requires PlainHeader(h) && (rest == "" || rest[0] != '[')
    ensures TakeOpt(WithAction(h, rest), "action") == (h.action, WithReply(h, rest))
  {
    ReplyOpens(h, rest);
    TakesItsOwn("action", h.action, WithReply(h, rest), {'r'});
  }

  lemma FromSessionTaken(h: Header, rest: string)
    requires PlainHeader(h) && (rest == "" || rest[0] != '[')
    ensures TakeOpt(WithFrom(h, rest), "from_session") == (h.fromSession, WithAction(h, rest))
  {
    ReplyOpens(h, rest);
    var suffix := WithAction(h, rest);
    OptOpens("action", h.action, WithReply(h, rest), {'r', 'a'});
    TakesItsOwn("from_session", h.fromSession, suffix, {'r', 'a'});
  }

  lemma FromOpens(h: Header, rest: string)
    requires rest == "" || rest[0] != '['
    ensures Opens(WithFrom(h, rest), {'r', 'a', 'f'})
  {
    ReplyOpens(h, rest);
    OptOpens("action", h.action, WithReply(h, rest), {'r', 'a', 'f'});
    OptOpens("from_session", h.fromSession, WithAction(h, rest), {'r', 'a', 'f'});
  }

  lemma SessionTaken(h: Header, rest: string)
    requires PlainHeader(h) && (rest == "" || rest[0] != '[')
    ensures TakeOpt(WithSession(h, rest), "session") == (h.session, WithFrom(h, rest))
  {
    var suffix := WithFrom(h, rest);
    FromOpens(h, rest);
    TakesItsOwn("session", h.session, suffix, {'r', 'a', 'f'});
  }

  lemma OptionalFieldsRead(h: Header, rest: string)
    requires PlainHeader(h) && (rest == "" || rest[0] != '[')
    ensures MatchOptional(h.sender, h.recipient, h.msgId, WithSession(h, rest))
            == Groups(h.sender, h.recipient, h.msgId, h.session, h.fromSession, h.action, h.reply, h.ref, LStrip(rest))
  {
    SessionTaken(h, rest);
    FromSessionTaken(h, rest);
    ActionTaken(h, rest);
    ReplyIsNoRef(h, rest);
    TakesItsOwn("ref", h.ref, rest, {});
  }

  lemma HeaderMatches(h: Header, rest: string)
    requires PlainHeader(h)
    ensures Match(Text(h, rest)) == Some(MatchOptional(h.sender, h.recipient, h.msgId, WithSession(h, rest)))
  {
    var tail := Field("id", h.msgId) + WithSession(h, rest);
    var names := Field("to", h.recipient) + tail;
    HeadReadsBack(OptField("v", h.version) + WithNames(h, rest));
    assert WithNames(h, rest)[1] == 'f';
    TakesItsOwn("v", h.version, WithNames(h, rest), {'f'});
    TakePrinted("from", h.sender, names);
    TakePrinted("to", h.recipient, tail);
    TakePrinted("id", h.msgId, WithSession(h, rest));
  }

  lemma ParseOfGroups(text: string, g: Groups)
    requires Match(text) == Some(g) && LStrip(g.rest) == g.rest
    ensures var (sender, recipient) := (ValidateName(g.sender), ValidateName(g.recipient));
            Parse(text) ==
            if sender.Some? && recipient.Some? && ValidToken(g.msgId)
               && ValidOptToken(g.session) && ValidOptToken(g.fromSession) && ValidOptToken(g.ref)
               && (g.action.None? || g.action.value in {"do", "info"}) && (g.reply.None? || g.reply.value in {"yes", "no", "end"})
            then Some(Envelope(sender.value, recipient.value, g.msgId, g.session, g.fromSession,
                               if g.action.None? then "info" else g.action.value,
                               if g.reply.None? then "no" else g.reply.value, g.ref, g.rest))
            else None
  {
  }

  /** Reading is tolerant of missing fields and strict with the ones that are there. Whatever fields a
      header has, and whatever text other than another field follows, the message is read if and only
      if the names and tokens are valid and the action and the reply, where given, are known words. A
      missing action means "info" and a missing reply "no"; everything else is as it was written. */
  lemma TolerantReceive(h: Header, rest: string)
    requires PlainHeader(h) && (rest == "" || rest[0] != '[')
    ensures var (sender, recipient) := (ValidateName(h.sender), ValidateName(h.recipient));
            Parse(Text(h, rest)) ==
            if sender.Some? && recipient.Some? && ValidToken(h.msgId)
               && ValidOptToken(h.session) && ValidOptToken(h.fromSession) && ValidOptToken(h.ref)
               && (h.action.None? || h.action.value in {"do", "info"}) && (h.reply.None? || h.reply.value in {"yes", "no", "end"})
            then Some(Envelope(sender.value, recipient.value, h.msgId, h.session, h.fromSession,
                               if h.action.None? then "info" else h.action.value,
                               if h.reply.None? then "no" else h.reply.value, h.ref, LStrip(rest)))
            else None
  {
    var text := Text(h, rest);
    HeaderMatches(h, rest);
    OptionalFieldsRead(h, rest);
    LStripIdempotent(rest);
    ParseOfGroups(text, Groups(h.sender, h.recipient, h.msgId, h.session, h.fromSession, h.action, h.reply, h.ref, LStrip(rest)));
  }
}
