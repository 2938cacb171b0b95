/**
 The mailbox of boot-shim/src/bootentry.rs: a text file in which the installer leaves a request and the
 shim its answer. An answered request is not served again.
 */
module BootMailbox {
  import opened Base
  import opened Utf16
  import opened BootEntry
  import opened BootRegister

  /** The file is always written whole. */
  const FILE_SIZE: nat := 4096

  const HEADER: string := "SOSOBOOT v1\n"
  const PROVISION: string := "PROVISION "
  const INSTALL: string := "INSTALL "
  const DESC: string := "soso"

  // ---------------------------------------------------------------- text

  predicate StartsWith(s: string, p: string) {
    |p| <= |s| && s[..|p|] == p
  }

  predicate IsSpace(c: char) {
    || '\t' <= c <= '\r' || c == ' ' || c == '\U{85}' || c == '\U{A0}' || c == '\U{1680}' || '\U{2000}' <= c <= '\U{200A}'
    || c == '\U{2028}' || c == '\U{2029}' || c == '\U{202F}' || c == '\U{205F}' || c == '\U{3000}'
  }

  function TrimStart(s: string): string {
    if s != [] && IsSpace(s[0]) then TrimStart(s[1..]) else s
  }

  function TrimEnd(s: string): string {
    if s != [] && IsSpace(s[|s| - 1]) then TrimEnd(s[..|s| - 1]) else s
  }

  function Trim(s: string): string {
    TrimEnd(TrimStart(s))
  }

  /** The end of the first line. */
  function LineEnd(s: string): (n: nat)
    ensures n <= |s| && '\n' !in s[..n] && (n < |s| ==> s[n] == '\n')
  {
    if s == [] || s[0] == '\n' then 0 else LineEnd(s[1..]) + 1
  }

  function After(s: string, n: nat): string
    requires n <= |s|
  {
    if n < |s| then s[n + 1..] else []
  }

  // ---------------------------------------------------------------- requests

  /** Reading a partition's GUID from text. */
  type GuidReader = string -> Option<string>

  /** What a text asks of `verb`: the first line that decides. */
  function Asked(text: string, verb: string, guid: GuidReader): Option<string>
    decreases |text|
  {
    if text == [] then None
    else
      var n := LineEnd(text);
      var line := Trim(text[..n]);
      if StartsWith(line, "DONE") || StartsWith(line, "ERROR") then None
      else if StartsWith(line, verb) then guid(Trim(line[|verb|..]))
      else Asked(After(text, n), verb, guid)
  }

  method ParsePeticion(text: string, verb: string, guid: GuidReader) returns (r: Option<string>)
    ensures r == Asked(text, verb, guid)
  {
    var rest := text;
    while rest != []
      invariant Asked(text, verb, guid) == Asked(rest, verb, guid)
      decreases |rest|
    {
      var n := LineEnd(rest);
      var line := Trim(rest[..n]);
      if StartsWith(line, "DONE") || StartsWith(line, "ERROR") {
        return None;
      }
      if StartsWith(line, verb) {
        return guid(Trim(line[|verb|..]));
      }
      rest := After(rest, n);
    }
    r := None;
  }

  datatype Request = Nothing | Provision(guid: string) | Install(guid: string)

  function RequestOf(text: Option<string>, guid: GuidReader): Request {
    match text
    case None => Nothing
    case Some(s) =>
      match Asked(s, PROVISION, guid)
      case Some(g) => Provision(g)
      case None => match Asked(s, INSTALL, guid) case Some(g) => Install(g) case None => Nothing
  }

  // ---------------------------------------------------------------- answers

  predicate IsAnswer(s: string) {
    StartsWith(s, "DONE") || StartsWith(s, "ERROR")
  }

  function Newlines(n: nat): (s: string)
    ensures |s| == n
  {
    seq(n, i => '\n')
  }

  /** The whole file with an answer: cut or filled to its size. */
  function Mail(answer: string): (m: string)
    ensures |m| == FILE_SIZE
  {
    var body := HEADER + answer;
    if |body| >= FILE_SIZE then body[..FILE_SIZE] else body + Newlines(FILE_SIZE - |body|)
  }

  predicate NoSpace(s: string) {
    forall i :: 0 <= i < |s| ==> !IsSpace(s[i])
  }

  lemma {:induction false} TrimEndKeeps(s: string, p: string)
    requires StartsWith(s, p) && NoSpace(p)
    ensures StartsWith(TrimEnd(s), p)
    decreases |s|
  {
    assert |p| == |s| ==> s == p;
    if s != [] && IsSpace(s[|s| - 1]) {
      assert s[..|s| - 1][..|p|] == s[..|p|];
      TrimEndKeeps(s[..|s| - 1], p);
    }
  }

  lemma TrimKeeps(s: string, p: string)
    requires StartsWith(s, p) && NoSpace(p) && p != []
    ensures StartsWith(Trim(s), p)
  {
    assert s[0] == s[..|p|][0] == p[0];
    TrimEndKeeps(s, p);
  }

  lemma {:induction false} LineEndAfter(s: string, p: string)
    requires StartsWith(s, p) && '\n' !in p
    ensures LineEnd(s) >= |p|
  {
    if p != [] {
      assert s[0] == s[..|p|][0] == p[0];
      assert s[1..][..|p| - 1] == s[..|p|][1..] == p[1..];
      LineEndAfter(s[1..], p[1..]);
    }
  }

  /** A text that begins with an answer asks for nothing. */
  lemma AnswerAsksNothing(text: string, verb: string, guid: GuidReader)
    requires IsAnswer(text)
    ensures Asked(text, verb, guid) == None
  {
    var p := if StartsWith(text, "DONE") then "DONE" else "ERROR";
    LineEndAfter(text, p);
    var n := LineEnd(text);
    assert text[..n][..|p|] == text[..|p|];
    TrimKeeps(text[..n], p);
  }

  lemma {:induction false} LineEndBefore(s: string, k: nat)
    requires k < |s| && s[k] == '\n'
    ensures LineEnd(s) <= k
  {
    if s[0] != '\n' {
      LineEndBefore(s[1..], k - 1);
    }
  }

  lemma HeaderLine(rest: string)
    ensures LineEnd(HEADER + rest) == 11 && (HEADER + rest)[..11] == "SOSOBOOT v1" && After(HEADER + rest, 11) == rest
  {
    var s := HEADER + rest;
    assert StartsWith(s, "SOSOBOOT v1");
    LineEndAfter(s, "SOSOBOOT v1");
    assert s[11] == '\n';
    LineEndBefore(s, 11);
  }

  /** The first line of the file asks for nothing and answers nothing. */
  lemma HeaderSkipped(rest: string, verb: string, guid: GuidReader)
    requires verb == PROVISION || verb == INSTALL
    ensures Asked(HEADER + rest, verb, guid) == Asked(rest, verb, guid)
  {
    HeaderLine(rest);
    var line := "SOSOBOOT v1";
    assert line[|line| - 1] == '1' && line[0] == 'S';
    assert Trim(line) == line;
    assert line[..4] == "SOSO" && line[..5] == "SOSOB";
    assert verb[0] != 'S';
    assert !StartsWith(line, verb) by {
      assert |verb| <= |line| ==> line[..|verb|][0] == 'S';
    }
  }

  lemma SameStart(a: string, b: string)
    requires IsAnswer(b) && |a| >= 5 && forall k :: 0 <= k < 5 && k < |b| ==> a[k] == b[k]
    ensures IsAnswer(a)
  {
    if StartsWith(b, "DONE") {
      assert a[..4] == b[..4];
    } else {
      assert a[..5] == b[..5];
    }
  }

  lemma MailSplits(answer: string) returns (rest: string)
    requires IsAnswer(answer)
    ensures Mail(answer) == HEADER + rest && IsAnswer(rest)
  {
    var m := Mail(answer);
    rest := m[12..];
    var body := HEADER + answer;
    assert m[..12] == body[..12] == HEADER;
    assert m == HEADER + rest;
    forall k | 0 <= k < 5 && k < |answer|
      ensures rest[k] == answer[k]
    {
      assert rest[k] == m[12 + k] == body[12 + k];
    }
    SameStart(rest, answer);
  }

  /** The file with an answer asks for neither verb, whatever the answer goes on with. */
  lemma AnsweredAsksNothing(answer: string, guid: GuidReader)
    requires IsAnswer(answer)
    ensures RequestOf(Some(Mail(answer)), guid) == Nothing
  {
    var rest := MailSplits(answer);
    HeaderSkipped(rest, PROVISION, guid);
    HeaderSkipped(rest, INSTALL, guid);
    AnswerAsksNothing(rest, PROVISION, guid);
    AnswerAsksNothing(rest, INSTALL, guid);
  }

  // ---------------------------------------------------------------- pending requests

  predicate AllSpace(s: string) {
    forall i :: 0 <= i < |s| ==> IsSpace(s[i])
  }

  /** Text that neither begins nor ends with a space. */
  predicate Bare(s: string) {
    s != [] && !IsSpace(s[0]) && !IsSpace(s[|s| - 1])
  }

  /** Blanks and tabs are spaces, line ends too; nothing that is visible in ASCII is. */
  lemma Spaces(c: char)
    ensures c in " \t\n\r" ==> IsSpace(c)
    ensures '!' <= c <= '~' ==> !IsSpace(c)
  {
  }

  lemma {:induction false} StartTrimmed(pre: string, s: string)
    requires AllSpace(pre) && (s == [] || !IsSpace(s[0]))
    ensures TrimStart(pre + s) == s
  {
    if pre == [] {
      assert pre + s == s;
    } else {
      assert (pre + s)[1..] == pre[1..] + s;
      StartTrimmed(pre[1..], s);
    }
  }

  lemma {:induction false} EndTrimmed(s: string, post: string)
    requires AllSpace(post) && (s == [] || !IsSpace(s[|s| - 1]))
    ensures TrimEnd(s + post) == s
    decreases |post|
  {
    if post == [] {
      assert s + post == s;
    } else {
      assert (s + post)[..|s + post| - 1] == s + post[..|post| - 1];
      EndTrimmed(s, post[..|post| - 1]);
    }
  }

  lemma Trimmed(pre: string, s: string, post: string)
    requires AllSpace(pre) && AllSpace(post) && Bare(s)
    ensures Trim(pre + s + post) == s
  {
    assert pre + s + post == pre + (s + post);
    StartTrimmed(pre, s + post);
    EndTrimmed(s, post);
  }

  /** Reading a line decides, or goes on behind it. */
  lemma AskedLine(line: string, rest: string, verb: string, guid: GuidReader)
    requires '\n' !in line
    ensures Asked(line + "\n" + rest, verb, guid) ==
            if IsAnswer(Trim(line)) then None
            else if StartsWith(Trim(line), verb) then guid(Trim(Trim(line)[|verb|..]))
            else Asked(rest, verb, guid)
  {
    FirstLine(line, rest);
    AskedSteps(line + "\n" + rest, |line|, verb, guid);
  }

  lemma FirstLine(line: string, rest: string)
    requires '\n' !in line
    ensures var s := line + "\n" + rest; LineEnd(s) == |line| && s[..|line|] == line && After(s, |line|) == rest
  {
    var s := line + "\n" + rest;
    assert s[..|line|] == line && s[|line|] == '\n' && s[|line| + 1..] == rest;
    LineEndAfter(s, line);
    LineEndBefore(s, |line|);
  }

  lemma AskedSteps(s: string, n: nat, verb: string, guid: GuidReader)
    requires s != [] && n == LineEnd(s)
    ensures Asked(s, verb, guid) ==
            var line := Trim(s[..n]);
            if IsAnswer(line) then None
            else if StartsWith(line, verb) then guid(Trim(line[|verb|..]))
            else Asked(After(s, n), verb, guid)
  {
  }

  /** Lines, each with its end. */
  function Lines(ls: seq<string>): string {
    if ls == [] then [] else ls[0] + "\n" + Lines(ls[1..])
  }

  /** A line that neither answers nor asks for any of the verbs. */
  predicate Idle(line: string, verb: string) {
    '\n' !in line && !IsAnswer(Trim(line)) && !StartsWith(Trim(line), verb)
  }

  lemma {:induction false} IdleSkipped(ls: seq<string>, rest: string, verb: string, guid: GuidReader)
    requires forall i :: 0 <= i < |ls| ==> Idle(ls[i], verb)
    ensures Asked(Lines(ls) + rest, verb, guid) == Asked(rest, verb, guid)
  {
    if ls == [] {
      assert Lines(ls) + rest == rest;
    } else {
      assert Lines(ls) + rest == ls[0] + "\n" + (Lines(ls[1..]) + rest);
      AskedLine(ls[0], Lines(ls[1..]) + rest, verb, guid);
      IdleSkipped(ls[1..], rest, verb, guid);
    }
  }

  /** No line after an answer counts, and no other line asks for the verb. */
  lemma {:induction false} NoneAsk(ls: seq<string>, verb: string, guid: GuidReader)
    requires forall i :: 0 <= i < |ls| ==> '\n' !in ls[i] && !StartsWith(Trim(ls[i]), verb)
    ensures Asked(Lines(ls), verb, guid) == None
  {
    if ls != [] {
      AskedLine(ls[0], Lines(ls[1..]), verb, guid);
      NoneAsk(ls[1..], verb, guid);
    }
  }

  /** A line with a request: spaces around it, and before and after the partition's GUID, do not matter. */
  lemma RequestLine(pre: string, verb: string, mid: string, g: string, post: string)
    requires verb == PROVISION || verb == INSTALL
    requires AllSpace(pre) && AllSpace(mid) && AllSpace(post) && Bare(g)
    ensures var line := Trim(pre + (verb + mid + g) + post);
            !IsAnswer(line) && StartsWith(line, verb) && Trim(line[|verb|..]) == g
    ensures verb == INSTALL ==> !StartsWith(Trim(pre + (verb + mid + g) + post), PROVISION)
  {
    var s := verb + mid + g;
    assert s[0] == verb[0] && s[|s| - 1] == g[|g| - 1];
    Trimmed(pre, s, post);
    assert s[..|verb|] == verb && s[|verb|..] == mid + g;
    assert mid + g + [] == mid + g;
    Trimmed(mid, g, []);
    FirstLetter(s, "DONE");
    FirstLetter(s, "ERROR");
    FirstLetter(s, PROVISION);
  }

  lemma FirstLetter(s: string, p: string)
    requires s != [] && p != []
    ensures s[0] != p[0] ==> !StartsWith(s, p)
  {
    assert StartsWith(s, p) ==> s[..|p|][0] == s[0];
  }

  /** A request to install is read, whatever stands around it: the lines before it neither answer nor ask, and none after it
      asks for provisioning. */
  lemma InstallRead(before: seq<string>, pre: string, mid: string, g: string, post: string, after: seq<string>, guid: GuidReader)
    requires forall i :: 0 <= i < |before| ==> Idle(before[i], PROVISION) && Idle(before[i], INSTALL)
    requires forall i :: 0 <= i < |after| ==> '\n' !in after[i] && !StartsWith(Trim(after[i]), PROVISION)
    requires AllSpace(pre) && AllSpace(mid) && AllSpace(post) && Bare(g) && '\n' !in pre + mid + g + post
    ensures var line := pre + ("INSTALL " + mid + g) + post;
            RequestOf(Some("SOSOBOOT v1\n" + (Lines(before) + (line + "\n" + Lines(after)))), guid) ==
            match guid(g) case None => Nothing case Some(x) => Install(x)
  {
    var line := pre + (INSTALL + mid + g) + post;
    var rest := line + "\n" + Lines(after);
    RequestLine(pre, INSTALL, mid, g, post);
    OneLine(pre, INSTALL, mid, g, post);
    HeaderSkipped(Lines(before) + rest, PROVISION, guid);
    HeaderSkipped(Lines(before) + rest, INSTALL, guid);
    IdleSkipped(before, rest, PROVISION, guid);
    IdleSkipped(before, rest, INSTALL, guid);
    AskedLine(line, Lines(after), PROVISION, guid);
    AskedLine(line, Lines(after), INSTALL, guid);
    NoneAsk(after, PROVISION, guid);
  }

  lemma OneLine(pre: string, verb: string, mid: string, g: string, post: string)
    requires '\n' !in pre + mid + g + post && (verb == PROVISION || verb == INSTALL)
    ensures '\n' !in pre + (verb + mid + g) + post
  {
    var all, line := pre + mid + g + post, pre + (verb + mid + g) + post;
    assert '\n' !in verb;
    assert forall c :: c in pre || c in mid || c in g || c in post ==> c in all;
    assert forall c :: c in line ==> c in pre || c in verb || c in mid || c in g || c in post;
  }

  /** A request to provision is read if the reader takes what follows the verb. */
  lemma ProvisionRead(before: seq<string>, pre: string, mid: string, g: string, post: string, rest: string, guid: GuidReader)
    requires forall i :: 0 <= i < |before| ==> Idle(before[i], PROVISION)
    requires AllSpace(pre) && AllSpace(mid) && AllSpace(post) && Bare(g) && '\n' !in pre + mid + g + post && guid(g).Some?
    ensures var line := pre + ("PROVISION " + mid + g) + post;
            RequestOf(Some("SOSOBOOT v1\n" + (Lines(before) + (line + "\n" + rest))), guid) == Provision(guid(g).value)
  {
    var line := pre + (PROVISION + mid + g) + post;
    RequestLine(pre, PROVISION, mid, g, post);
    OneLine(pre, PROVISION, mid, g, post);
    HeaderSkipped(Lines(before) + (line + "\n" + rest), PROVISION, guid);
    IdleSkipped(before, line + "\n" + rest, PROVISION, guid);
    AskedLine(line, rest, PROVISION, guid);
  }

  // ---------------------------------------------------------------- serving a request

  function EspLine(guid: string): string {
    "\nesp " + guid + "\n"
  }

  function ProvisionAnswer(guid: string, r: Result<string, string>): (s: string)
    ensures IsAnswer(s)
  {
    match r
    case Ok(detail) => "DONE PROVISION" + EspLine(guid) + detail
    case Err(e) => "ERROR " + e + EspLine(guid)
  }

  function RescueNote(r: Outcome, why: string): string
    requires r.Ordered? ==> r.num <= LAST
  {
    if r.Ordered? then "rescate " + BootName(r.num) else "rescate NO registrado: " + why
  }

  function InstallAnswer(guid: string, n: Outcome, rescue: Option<Outcome>, why: string): (s: string)
    requires n.Ordered? ==> n.num <= LAST && rescue.Some? && (rescue.value.Ordered? ==> rescue.value.num <= LAST)
    ensures IsAnswer(s) && (StartsWith(s, "DONE") <==> n.Ordered?)
  {
    if n.Ordered? then
      "DONE " + BootName(n.num) + " " + DESC + EspLine(guid) + RescueNote(rescue.value, why)
      + "\nEntrada de arranque registrada; ya puedes quitar el USB.\n"
    else
      var s := "ERROR " + why + EspLine(guid);
      assert s[..4] == "ERRO" && s[..5] == "ERROR";
      s
  }

  /** The states a request to install passes through. */
  datatype Trace = Trace(a: Vars, b: Vars, c: Vars, normal: Outcome, rescue: Option<Outcome>)

  /** A request to install registers the normal entry, then, if that succeeded, the rescue entry. */
  ghost predicate Installed(was: Vars, now: Vars, dp: Option<Bytes>, desc: Units, rescueDesc: Units, signal: Units, t: Trace) {
    && Registered(was, t.a, t.b, dp, desc, None, t.normal)
    && if t.normal.Ordered? then t.rescue.Some? && Registered(t.b, t.c, now, dp, rescueDesc, Some(signal), t.rescue.value)
       else t.rescue.None? && now == t.b
  }

  /** A request to install that was served to the end is a pair of registrations. */
  lemma InstalledIsPair(was: Vars, now: Vars, t: Trace, p: Pair)
    requires Installed(was, now, Some(p.dp), p.normal, p.rescue, p.signal, t)
    requires t.normal == Ordered(p.n) && t.rescue == Some(Ordered(p.r))
    ensures Both(was, t.a, t.b, t.c, now, p)
  {
  }

  /** What the firmware was asked for both registrations. */
  function InstallTries(dp: Option<Bytes>, desc: Units, rescueDesc: Units, signal: Units, t: Trace): seq<Try> {
    Tries(t.a, dp, desc, None, t.normal)
    + if t.rescue.Some? then Tries(t.c, dp, rescueDesc, Some(signal), t.rescue.value) else []
  }

  predicate Numbered(t: Trace) {
    t.normal.Ordered? ==> t.normal.num <= LAST && t.rescue.Some? && (t.rescue.value.Ordered? ==> t.rescue.value.num <= LAST)
  }

  lemma Pieces(a: string, b: string, c: string, d: string, e: string, g: string, h: string, k: string, m: string, z: string)
    ensures StartsWith(a + b + c + d + (e + g + h) + (k + m) + z, a + b + (c + d + e) + g + (h + k) + m)
  {
    var s, p := a + b + c + d + (e + g + h) + (k + m) + z, a + b + (c + d + e) + g + (h + k) + m;
    assert s == p + z;
  }

  lemma Words4()
    ensures " soso\nesp " == " " + DESC + "\nesp " && "\nrescate " == "\n" + "rescate "
    ensures "rescate NO registrado: " == "rescate " + "NO registrado: "
  {
  }

  /** The answer to an installation says under which numbers the entries are, and for which partition. */
  lemma InstallText(guid: string, n: nat, rescue: Outcome, why: string)
    requires n <= LAST && (rescue.Ordered? ==> rescue.num <= LAST)
    ensures var m := if rescue.Ordered? then BootName(rescue.num) else "NO registrado: " + why;
            StartsWith(InstallAnswer(guid, Ordered(n), Some(rescue), why),
                       "DONE " + BootName(n) + " soso\nesp " + guid + "\nrescate " + m)
  {
    var m := if rescue.Ordered? then BootName(rescue.num) else "NO registrado: " + why;
    var last := "\nEntrada de arranque registrada; ya puedes quitar el USB.\n";
    Words4();
    RescueWords(rescue, why, m);
    Pieces("DONE ", BootName(n), " ", DESC, "\nesp ", guid, "\n", "rescate ", m, last);
  }

  lemma RescueWords(rescue: Outcome, why: string, m: string)
    requires rescue.Ordered? ==> rescue.num <= LAST
    requires m == if rescue.Ordered? then BootName(rescue.num) else "NO registrado: " + why
    ensures RescueNote(rescue, why) == "rescate " + m
  {
    Words4();
    Assoc("rescate ", "NO registrado: ", why);
  }

  lemma Assoc(a: string, b: string, c: string)
    ensures (a + b) + c == a + (b + c)
  {
  }

  /** The file holds the header, the answer as far as it fits, and line ends. */
  lemma MailText(answer: string)
    ensures |Mail(answer)| == 4096 && Mail(answer)[..12] == "SOSOBOOT v1\n"
    ensures |answer| <= 4084 ==> Mail(answer)[12..12 + |answer|] == answer
    ensures forall i :: 12 + |answer| <= i < 4096 ==> Mail(answer)[i] == '\n'
    ensures |answer| > 4084 ==> Mail(answer)[12..] == answer[..4084]
  {
    var body := HEADER + answer;
    assert body[12..] == answer;
  }

  /** One attempt to write the mailbox. */
  datatype Write = Write(text: string, done: bool)

  class Shim {
    const firmware: Firmware
    var mailbox: Option<string>
    ghost var writes: seq<Write>

    constructor (firmware: Firmware, mailbox: Option<string>)
      ensures this.firmware == firmware && this.mailbox == mailbox && writes == []
    {
      this.firmware, this.mailbox := firmware, mailbox;
      writes := [];
    }

    /** The write is attempted; if it cannot be made, nobody is told. */
    method EscribirRespuesta(answer: string) returns (ok: bool)
      requires mailbox.Some?
      modifies this
      ensures mailbox == if ok then Some(Mail(answer)) else old(mailbox)
      ensures writes == old(writes) + [Write(Mail(answer), ok)]
    {
      ok := *;
      writes := writes + [Write(Mail(answer), ok)];
      if ok {
        mailbox := Some(Mail(answer));
      }
    }

    /** `dp` is the loader's path on the partition asked for, `provision` what provisioning it would say, `why` the reason
        of a failure. */
    method Atender(guid: GuidReader, dp: Option<Bytes>, provision: Result<string, string>, desc: Units, rescueDesc: Units,
                   signal: Units, why: string)
      returns (served: Request, answer: string, written: bool, ghost t: Trace)
      modifies this, firmware
      ensures served == RequestOf(old(mailbox), guid)
      ensures served == Nothing ==> mailbox == old(mailbox) && writes == old(writes)
      ensures served != Nothing ==>
                && IsAnswer(answer) && writes == old(writes) + [Write(Mail(answer), written)]
                && mailbox == if written then Some(Mail(answer)) else old(mailbox)
      ensures !served.Install? ==> firmware.vars == old(firmware.vars) && firmware.tried == old(firmware.tried)
      ensures served.Provision? ==> answer == ProvisionAnswer(served.guid, provision)
      ensures served.Install? ==>
                && Installed(old(firmware.vars), firmware.vars, dp, desc, rescueDesc, signal, t)
                && firmware.tried == old(firmware.tried) + InstallTries(dp, desc, rescueDesc, signal, t)
                && Numbered(t) && answer == InstallAnswer(served.guid, t.normal, t.rescue, why)
                && (StartsWith(answer, "DONE") <==> t.normal.Ordered?)
    {
      answer, written, served := "", false, Nothing;
      t := Trace([], [], [], NoPartition, None);
      if mailbox.None? {
        return;
      }
      var g := ParsePeticion(mailbox.value, PROVISION, guid);
      if g.Some? {
        served := Provision(g.value);
        answer := ProvisionAnswer(g.value, provision);
        written := EscribirRespuesta(answer);
        return;
      }
      g := ParsePeticion(mailbox.value, INSTALL, guid);
      if g.None? {
        return;
      }
      served := Install(g.value);
      var normal, rescue;
      normal, rescue, t := RegistrarAmbas(dp, desc, rescueDesc, signal);
      answer := InstallAnswer(g.value, normal, rescue, why);
      written := EscribirRespuesta(answer);
    }

    method RegistrarAmbas(dp: Option<Bytes>, desc: Units, rescueDesc: Units, signal: Units)
      returns (normal: Outcome, rescue: Option<Outcome>, ghost t: Trace)
      modifies firmware
      ensures Installed(old(firmware.vars), firmware.vars, dp, desc, rescueDesc, signal, t)
      ensures firmware.tried == old(firmware.tried) + InstallTries(dp, desc, rescueDesc, signal, t)
      ensures t.normal == normal && t.rescue == rescue && Numbered(t)
    {
      ghost var a, b, c;
      rescue := None;
      normal, a := firmware.Registrar(dp, desc, None);
      b := firmware.vars;
      c := b;
      if normal.Ordered? {
        var r;
        r, c := firmware.Registrar(dp, rescueDesc, Some(signal));
        rescue := Some(r);
      }
      t := Trace(a, b, c, normal, rescue);
    }
  }
}
