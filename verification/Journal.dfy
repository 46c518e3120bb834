/** The per-chat run journal (crates/engine/src/run_journal.rs): append-only files of one event a
    line, written by a process that may die at any character. */
module Journal {
  import opened Common

  /** An agent event; all the journal itself looks at is whether it ends the run. */
  datatype AgentEvent = Done(payload: string) | Ongoing(payload: string)

  datatype Line = Line(seqNo: nat, event: AgentEvent)

  /** The JSON library. */
  datatype Json = Json(render: Line -> string, parse: string -> Option<Line>)

  predicate Unbroken(line: string) { forall i :: 0 <= i < |line| ==> line[i] != '\n' }

  /** What the journal needs of it: a line reads back, contains no line break, and no part of it
      cut off at the end reads as a line. */
  ghost predicate Sound(json: Json) {
    forall l ::
      && json.parse(json.render(l)) == Some(l)
      && json.render(l) != "" && Unbroken(json.render(l))
      && forall k :: 0 <= k < |json.render(l)| ==> json.parse(json.render(l)[..k]).None?
  }

  // ----- reading -----

  /** Where the line that contains `from` ends: at its line break, or with the text. */
  function LineEndFrom(text: string, from: nat): (n: nat)
    requires from <= |text|
    ensures from <= n <= |text| && forall i :: from <= i < n ==> text[i] != '\n'
    ensures n < |text| ==> text[n] == '\n'
    decreases |text| - from
  {
    if from == |text| || text[from] == '\n' then from else LineEndFrom(text, from + 1)
  }

  function LineEnd(text: string): nat { LineEndFrom(text, 0) }

  function Parsed(line: string, json: Json): seq<Line> {
    var l := json.parse(line);
    if l.Some? then [l.value] else []
  }

  /** Every line that parses, the last one even without its line break. */
  function Lines(text: string, json: Json): seq<Line>
    decreases |text|
  {
    if text == "" then []
    else
      var n := LineEnd(text);
      Parsed(text[..n], json) + if n == |text| then [] else Lines(text[n + 1..], json)
  }

  predicate MidLine(text: string) { text != "" && text[|text| - 1] != '\n' }

  lemma LineEndIs(text: string, n: nat)
    requires n <= |text| && (forall i :: 0 <= i < n ==> text[i] != '\n') && (n < |text| ==> text[n] == '\n')
    ensures LineEnd(text) == n
  {
    var m := LineEnd(text);
    assert m < |text| ==> text[m] == '\n';
  }

  lemma LinesHead(head: string, rest: string, json: Json)
    requires Unbroken(head)
    ensures Lines(head + "\n" + rest, json) == Parsed(head, json) + Lines(rest, json)
  {
    var text := head + "\n" + rest;
    LineEndIs(text, |head|);
    assert text[..|head|] == head && text[|head| + 1..] == rest;
  }

  lemma SplitLine(text: string) returns (head: string, rest: string)
    requires text != ""
    ensures Unbroken(head)
    ensures text == head + "\n" + rest || (text == head && rest == "")
    ensures !MidLine(text) ==> text == head + "\n" + rest && !MidLine(rest)
    ensures MidLine(text) && text != head ==> text == head + "\n" + rest && MidLine(rest)
  {
    var n := LineEnd(text);
    head := text[..n];
    rest := if n == |text| then "" else text[n + 1..];
  }

  /** Text after a finished line reads separately. */
  lemma {:induction false} LinesAppend(a: string, b: string, json: Json)
    requires !MidLine(a)
    ensures Lines(a + b, json) == Lines(a, json) + Lines(b, json)
    decreases |a|
  {
    if a == "" {
      assert a + b == b;
    } else {
      var head, rest := SplitLine(a);
      assert a + b == head + "\n" + (rest + b);
      LinesHead(head, rest, json);
      LinesHead(head, rest + b, json);
      LinesAppend(rest, b, json);
      Reassociated(Parsed(head, json), Lines(rest, json), Lines(b, json));
    }
  }

  /** Reading on from the middle of a file. */
  lemma LinesFrom(text: string, off: nat, end: nat, json: Json)
    requires off <= end <= |text| && off < |text| && (forall i :: off <= i < end ==> text[i] != '\n')
    requires end < |text| ==> text[end] == '\n'
    ensures Lines(text[off..], json) ==
      Parsed(text[off..end], json) + if end == |text| then [] else Lines(text[end + 1..], json)
  {
    var rest := text[off..];
    LineEndIs(rest, end - off);
    assert rest[..end - off] == text[off..end];
    if end < |text| { assert rest[end - off + 1..] == text[end + 1..]; }
  }

  /** And so it does after a torn line, once the line is broken off. */
  lemma {:induction false} LinesBreak(a: string, b: string, json: Json)
    requires MidLine(a)
    ensures Lines(a + "\n" + b, json) == Lines(a, json) + Lines(b, json)
    decreases |a|
  {
    var head, rest := SplitLine(a);
    if a == head {
      LinesHead(a, b, json);
      WholeLine(a, json);
    } else {
      assert a + "\n" + b == head + "\n" + (rest + "\n" + b);
      LinesHead(head, rest, json);
      LinesHead(head, rest + "\n" + b, json);
      LinesBreak(rest, b, json);
      Reassociated(Parsed(head, json), Lines(rest, json), Lines(b, json));
    }
  }

  lemma WholeLine(line: string, json: Json)
    requires line != "" && Unbroken(line)
    ensures Lines(line, json) == Parsed(line, json)
  {
    assert line[..|line|] == line;
    LineEndIs(line, |line|);
  }

  /** One line, complete or cut off, with or without its line break. */
  lemma OneLine(line: string, json: Json)
    requires line != "" && Unbroken(line)
    ensures Lines(line, json) == Parsed(line, json) == Lines(line + "\n", json)
  {
    WholeLine(line, json);
    LinesHead(line, "", json);
    assert line + "\n" + "" == line + "\n";
  }

  // ----- writing -----

  function Lead(text: string): string { if MidLine(text) then "\n" else "" }

  /** What one append writes to a file that holds `text`. */
  function Written(text: string, l: Line, json: Json): string { Lead(text) + json.render(l) + "\n" }

  lemma LedLines(text: string, body: string, json: Json)
    ensures Lines(text + Lead(text) + body, json) == Lines(text, json) + Lines(body, json)
  {
    if MidLine(text) {
      LinesBreak(text, body, json);
    } else {
      assert text + "" == text;
      LinesAppend(text, body, json);
    }
  }

  /** After a write that stopped at any character the file holds one more line, or the same
      lines as before. */
  lemma TornWrite(text: string, l: Line, json: Json, k: nat)
    requires Sound(json) && k <= |Written(text, l, json)|
    ensures Lines(text + Written(text, l, json)[..k], json) ==
      Lines(text, json) + if k >= |Lead(text)| + |json.render(l)| then [l] else []
  {
    var lead, tail := Lead(text), json.render(l) + "\n";
    assert Written(text, l, json) == lead + tail;
    if k < |lead| {
      assert text + (lead + tail)[..k] == text;
    } else {
      var body := tail[..k - |lead|];
      assert text + (lead + tail)[..k] == text + lead + body;
      LedLines(text, body, json);
      BodyLines(l, json, body, k - |lead|);
    }
  }

  lemma BodyLines(l: Line, json: Json, body: string, k: nat)
    requires Sound(json) && k <= |json.render(l)| + 1 && body == (json.render(l) + "\n")[..k]
    ensures Lines(body, json) == if k >= |json.render(l)| then [l] else []
  {
    var line := json.render(l);
    if k > |line| {
      assert body == line + "\n";
      OneLine(line, json);
    } else {
      assert body == line[..k];
      if k == |line| { assert body == line; }
      if k > 0 { OneLine(body, json); }
    }
  }

  // ----- the journal of every chat -----

  const OPEN_FILE_CAP: nat := 16

  /** What is remembered of an open file. */
  datatype Slot = Slot(nextSeq: nat, needsNewline: bool)

  /** Files by name, open files by chat, and (history) what each chat's appends returned. */
  datatype Store = Store(files: map<string, string>, slots: map<string, Slot>, acked: map<string, seq<Line>>)

  predicate Plain(c: char) {
    'a' <= c <= 'z' || 'A' <= c <= 'Z' || '0' <= c <= '9' || c == '-' || c == '_'
  }

  function Sanitize(chat: string): string {
    if chat == "" then "" else [if Plain(chat[0]) then chat[0] else '_'] + Sanitize(chat[1..])
  }

  function TextOf(s: Store, chat: string): string {
    if Sanitize(chat) in s.files then s.files[Sanitize(chat)] else ""
  }

  function AckedOf(s: Store, chat: string): seq<Line> { if chat in s.acked then s.acked[chat] else [] }

  function NextSeq(lines: seq<Line>): nat { if lines == [] then 1 else lines[|lines| - 1].seqNo + 1 }

  function Scan(text: string, json: Json): Slot { Slot(NextSeq(Lines(text, json)), MidLine(text)) }

  /** The chat's file is open: found so, or opened and scanned, all others closed if too many. */
  function Opened(s: Store, chat: string, json: Json): Store {
    if chat in s.slots then s
    else
      var kept := if |s.slots| >= OPEN_FILE_CAP then map[] else s.slots;
      s.(slots := kept[chat := Scan(TextOf(s, chat), json)])
  }

  function NextLine(s: Store, chat: string, e: AgentEvent, json: Json): Line {
    Line(Opened(s, chat, json).slots[chat].nextSeq, e)
  }

  function Buffer(s: Store, chat: string, e: AgentEvent, json: Json): string {
    (if Opened(s, chat, json).slots[chat].needsNewline then "\n" else "") + json.render(NextLine(s, chat, e, json)) + "\n"
  }

  function Appended(s: Store, chat: string, e: AgentEvent, json: Json): Store {
    var o, l := Opened(s, chat, json), NextLine(s, chat, e, json);
    Store(s.files[Sanitize(chat) := TextOf(s, chat) + Buffer(s, chat, e, json)],
          o.slots[chat := Slot(l.seqNo + 1, false)],
          s.acked[chat := AckedOf(s, chat) + [l]])
  }

  datatype Action =
    | Append(chat: string, event: AgentEvent)
    | DieAppending(chat: string, event: AgentEvent, k: nat)
    | Restart
    | Discard(chat: string)

  /** `DieAppending` is the process dying after k characters of the write; a restart forgets
      which files were open. */
  function Step(s: Store, a: Action, json: Json): Store {
    match a
    case Append(chat, e) => Appended(s, chat, e, json)
    case DieAppending(chat, e, k) =>
      var b := Buffer(s, chat, e, json);
      if k > |b| then s
      else Store(s.files[Sanitize(chat) := TextOf(s, chat) + b[..k]], map[], s.acked)
    case Restart => s.(slots := map[])
    case Discard(chat) => Store(s.files - {Sanitize(chat)}, s.slots - {chat}, s.acked - {chat})
  }

  function Runs(s: Store, actions: seq<Action>, json: Json): Store {
    if actions == [] then s else Step(Runs(s, actions[..|actions| - 1], json), actions[|actions| - 1], json)
  }

  // ----- what every run keeps -----

  /** The lines are numbered 1, 2, 3, ... without gap or repeat. */
  ghost predicate Numbered(lines: seq<Line>) { forall i :: 0 <= i < |lines| ==> lines[i].seqNo == i + 1 }

  /** Every append that returned is in the file once, at its own number, in the order returned. */
  ghost predicate Kept(acked: seq<Line>, lines: seq<Line>) {
    && (forall i :: 0 <= i < |acked| ==> 1 <= acked[i].seqNo <= |lines| && lines[acked[i].seqNo - 1] == acked[i])
    && forall i, j :: 0 <= i < j < |acked| ==> acked[i].seqNo < acked[j].seqNo
  }

  ghost predicate Intact(s: Store, chat: string, json: Json) {
    var text := TextOf(s, chat);
    && Numbered(Lines(text, json)) && Kept(AckedOf(s, chat), Lines(text, json))
    && (chat in s.slots ==> s.slots[chat] == Slot(|Lines(text, json)| + 1, MidLine(text)))
  }

  /** The ids in use do not collide as file names. */
  ghost predicate Distinct(chats: set<string>) {
    forall a, b :: a in chats && b in chats && Sanitize(a) == Sanitize(b) ==> a == b
  }

  ghost predicate AllIntact(s: Store, chats: set<string>, json: Json) {
    forall chat :: chat in chats ==> Intact(s, chat, json)
  }

  predicate Uses(a: Action, chats: set<string>) { a.Restart? || a.chat in chats }

  lemma ScanIsExact(text: string, json: Json)
    requires Numbered(Lines(text, json))
    ensures Scan(text, json) == Slot(|Lines(text, json)| + 1, MidLine(text))
  {
  }

  lemma OpenedIsExact(s: Store, chat: string, json: Json)
    requires Intact(s, chat, json)
    ensures var text := TextOf(s, chat);
      Opened(s, chat, json).slots[chat] == Slot(|Lines(text, json)| + 1, MidLine(text))
  {
    ScanIsExact(TextOf(s, chat), json);
  }

  /** What an append writes follows from the file alone. */
  lemma BufferIsWritten(s: Store, chat: string, e: AgentEvent, json: Json)
    requires Intact(s, chat, json)
    ensures var text := TextOf(s, chat);
      && NextLine(s, chat, e, json) == Line(|Lines(text, json)| + 1, e)
      && Buffer(s, chat, e, json) == Written(text, Line(|Lines(text, json)| + 1, e), json)
  {
    OpenedIsExact(s, chat, json);
  }

  lemma KeptGrows(acked: seq<Line>, lines: seq<Line>, l: Line)
    requires Numbered(lines) && Kept(acked, lines) && l.seqNo == |lines| + 1
    ensures Numbered(lines + [l]) && Kept(acked, lines + [l]) && Kept(acked + [l], lines + [l])
  {
  }

  lemma AppendKeeps(s: Store, chat: string, e: AgentEvent, json: Json)
    requires Sound(json) && Intact(s, chat, json)
    ensures Intact(Appended(s, chat, e, json), chat, json)
  {
    var text, l := TextOf(s, chat), NextLine(s, chat, e, json);
    BufferIsWritten(s, chat, e, json);
    FullWrite(text, l, json);
    KeptGrows(AckedOf(s, chat), Lines(text, json), l);
    var n := Appended(s, chat, e, json);
    assert TextOf(n, chat) == text + Written(text, l, json) && AckedOf(n, chat) == AckedOf(s, chat) + [l];
  }

  lemma FullWrite(text: string, l: Line, json: Json)
    requires Sound(json)
    ensures Lines(text + Written(text, l, json), json) == Lines(text, json) + [l]
    ensures !MidLine(text + Written(text, l, json))
  {
    var w := Written(text, l, json);
    assert w[..|w|] == w;
    TornWrite(text, l, json, |w|);
  }

  lemma DeathKeeps(s: Store, chat: string, e: AgentEvent, k: nat, json: Json)
    requires Sound(json) && Intact(s, chat, json)
    ensures Intact(Step(s, DieAppending(chat, e, k), json), chat, json)
  {
    var text, l := TextOf(s, chat), NextLine(s, chat, e, json);
    BufferIsWritten(s, chat, e, json);
    if k <= |Written(text, l, json)| {
      TornWrite(text, l, json, k);
      KeptGrows(AckedOf(s, chat), Lines(text, json), l);
      var n := Step(s, DieAppending(chat, e, k), json);
      assert TextOf(n, chat) == text + Written(text, l, json)[..k] && AckedOf(n, chat) == AckedOf(s, chat);
      assert Lines(text, json) + [] == Lines(text, json);
    }
  }

  lemma OthersKept(s: Store, a: Action, other: string, json: Json)
    requires Intact(s, other, json)
    requires a.Restart? || Sanitize(a.chat) != Sanitize(other)
    ensures Intact(Step(s, a, json), other, json)
  {
    OthersUntouched(s, a, other, json);
    SameIsIntact(s, Step(s, a, json), other, json);
  }

  /** Nothing about a chat changes but that its slot may be gone. */
  ghost predicate Untouched(s: Store, n: Store, chat: string) {
    && TextOf(n, chat) == TextOf(s, chat) && AckedOf(n, chat) == AckedOf(s, chat)
    && (chat in n.slots ==> chat in s.slots && n.slots[chat] == s.slots[chat])
  }

  lemma OthersUntouched(s: Store, a: Action, other: string, json: Json)
    requires a.Restart? || Sanitize(a.chat) != Sanitize(other)
    ensures Untouched(s, Step(s, a, json), other)
  {
    match a
    case Append(chat, e) => AppendsElsewhere(s, chat, e, other, json);
    case DieAppending(chat, _, _) => assert chat != other;
    case Restart =>
    case Discard(chat) => assert chat != other;
  }

  lemma AppendsElsewhere(s: Store, chat: string, e: AgentEvent, other: string, json: Json)
    requires Sanitize(chat) != Sanitize(other)
    ensures Untouched(s, Appended(s, chat, e, json), other)
  {
    assert chat != other;
    OpensElsewhere(s, chat, other, json);
  }

  lemma OpensElsewhere(s: Store, chat: string, other: string, json: Json)
    requires chat != other
    ensures var o := Opened(s, chat, json);
      other in o.slots ==> other in s.slots && o.slots[other] == s.slots[other]
  {
  }

  lemma SameIsIntact(s: Store, n: Store, chat: string, json: Json)
    requires Intact(s, chat, json) && Untouched(s, n, chat)
    ensures Intact(n, chat, json)
  {
  }

  lemma StepKeeps(s: Store, a: Action, chats: set<string>, json: Json)
    requires Sound(json) && Distinct(chats) && AllIntact(s, chats, json) && Uses(a, chats)
    ensures AllIntact(Step(s, a, json), chats, json)
  {
    forall chat | chat in chats ensures Intact(Step(s, a, json), chat, json) {
      if a.Restart? || a.chat != chat {
        OthersKept(s, a, chat, json);
      } else {
        match a
        case Append(_, e) => AppendKeeps(s, chat, e, json);
        case DieAppending(_, e, k) => DeathKeeps(s, chat, e, k, json);
        case Discard(_) =>
      }
    }
  }

  /** Over every run of appends, restarts and deaths at any character, each chat's file reads as
      lines 1, 2, 3, ... and holds every append that returned, once and in order. */
  lemma {:induction false} JournalStaysIntact(s: Store, actions: seq<Action>, chats: set<string>, json: Json)
    requires Sound(json) && Distinct(chats) && AllIntact(s, chats, json)
    requires forall a :: a in actions ==> Uses(a, chats)
    ensures AllIntact(Runs(s, actions, json), chats, json)
  {
    if actions != [] {
      var before, a := actions[..|actions| - 1], actions[|actions| - 1];
      assert a in actions;
      JournalStaysIntact(s, before, chats, json);
      StepKeeps(Runs(s, before, json), a, chats, json);
    }
  }

  // ----- replay -----

  function After(lines: seq<Line>, from: nat): seq<Line> {
    if lines == [] then []
    else
      var last := lines[|lines| - 1];
      After(lines[..|lines| - 1], from) + if last.seqNo > from then [last] else []
  }

  /** Lines after the cursor; a cursor ahead of the file is of another era and replays all. */
  function Replayed(lines: seq<Line>, cursor: nat): seq<Line> {
    var last := if lines == [] then 0 else lines[|lines| - 1].seqNo;
    After(lines, if cursor > last then 0 else cursor)
  }

  lemma {:induction false} AfterIsSuffix(lines: seq<Line>, from: nat)
    requires Numbered(lines)
    ensures After(lines, from) == if from <= |lines| then lines[from..] else []
  {
    if lines != [] {
      AfterIsSuffix(lines[..|lines| - 1], from);
      if from < |lines| { assert lines[..|lines| - 1][from..] + [lines[|lines| - 1]] == lines[from..]; }
    }
  }

  /** A reader that has seen the lines up to its cursor and replays from there has seen every
      line once; one with a cursor from elsewhere gets everything. */
  lemma ReplayResumes(lines: seq<Line>, cursor: nat)
    requires Numbered(lines)
    ensures cursor <= |lines| ==> lines[..cursor] + Replayed(lines, cursor) == Replayed(lines, 0)
    ensures cursor > |lines| ==> Replayed(lines, cursor) == Replayed(lines, 0)
    ensures Replayed(lines, 0) == lines
  {
    AfterIsSuffix(lines, cursor);
    AfterIsSuffix(lines, 0);
  }

  lemma AppendSlots(s: Store, chat: string, e: AgentEvent, json: Json)
    ensures var n, l := Appended(s, chat, e, json), NextLine(s, chat, e, json);
      && chat in n.slots && n.slots[chat] == Slot(l.seqNo + 1, false)
      && forall o :: o != chat && |s.slots| < OPEN_FILE_CAP ==>
           (o in n.slots <==> o in s.slots) && (o in s.slots ==> n.slots[o] == s.slots[o])
  {
  }

  lemma AppendsTo(s: Store, chat: string, e: AgentEvent, json: Json)
    requires Sound(json) && !MidLine(TextOf(s, chat))
    requires chat in s.slots ==> !s.slots[chat].needsNewline
    ensures var n, l := Appended(s, chat, e, json), NextLine(s, chat, e, json);
      Lines(TextOf(n, chat), json) == Lines(TextOf(s, chat), json) + [l] && !MidLine(TextOf(n, chat))
  {
    FullWrite(TextOf(s, chat), NextLine(s, chat, e, json), json);
  }

  lemma FirstOfTwo(a: string, b: string, d: AgentEvent, json: Json)
    requires Sound(json) && a != b && Sanitize(a) == Sanitize(b)
    ensures var s := Appended(Store(map[], map[], map[]), a, d, json);
      && s.slots == map[a := Slot(2, false)] && TextOf(s, a) == TextOf(s, b)
      && !MidLine(TextOf(s, b)) && Lines(TextOf(s, b), json) == [Line(1, d)]
  {
    AppendsTo(Store(map[], map[], map[]), a, d, json);
    AppendSlots(Store(map[], map[], map[]), a, d, json);
  }

  lemma SecondOfTwo(s: Store, a: string, b: string, d: AgentEvent, e: AgentEvent, json: Json)
    requires Sound(json) && a != b && Sanitize(a) == Sanitize(b)
    requires s.slots == map[a := Slot(2, false)]
    requires !MidLine(TextOf(s, b)) && Lines(TextOf(s, b), json) == [Line(1, d)]
    ensures var n := Appended(s, b, e, json);
      && a in n.slots && n.slots[a] == Slot(2, false) && TextOf(n, a) == TextOf(n, b)
      && !MidLine(TextOf(n, a)) && Lines(TextOf(n, a), json) == [Line(1, d), Line(2, e)]
  {
    AppendsTo(s, b, e, json);
    AppendSlots(s, b, e, json);
  }

  /** Ids that become the same file name break the numbering: each counts from its own scan. */
  lemma CollidingIdsRepeat(a: string, b: string, d: AgentEvent, e: AgentEvent, f: AgentEvent, json: Json)
    requires Sound(json) && a != b && Sanitize(a) == Sanitize(b)
    ensures var s := Appended(Appended(Appended(Store(map[], map[], map[]), a, d, json), b, e, json), a, f, json);
      Lines(TextOf(s, a), json) == [Line(1, d), Line(2, e), Line(2, f)]
  {
    FirstOfTwo(a, b, d, json);
    var s := Appended(Store(map[], map[], map[]), a, d, json);
    SecondOfTwo(s, a, b, d, e, json);
    AppendsTo(Appended(s, b, e, json), a, f, json);
  }

  // ----- the loops -----

  /** A file name is the id with every character that is not a letter, a digit, a dash or an
      underscore replaced by an underscore. */
  lemma {:induction false} SanitizeExactly(chat: string)
    ensures |Sanitize(chat)| == |chat|
    ensures forall i :: 0 <= i < |chat| ==>
      var c := chat[i];
      Sanitize(chat)[i] ==
        if 'a' <= c <= 'z' || 'A' <= c <= 'Z' || '0' <= c <= '9' || c == '-' || c == '_' then c else '_'
  {
    if chat != "" {
      SanitizeExactly(chat[1..]);
      assert forall i :: 0 < i < |chat| ==> chat[i] == chat[1..][i - 1] && Sanitize(chat)[i] == Sanitize(chat[1..])[i - 1];
    }
  }

  // ----- how many files are open -----

  lemma OneMoreKey<T>(m: map<string, T>, k: string, v: T)
    ensures |m[k := v]| <= |m| + 1
  {
    assert m[k := v].Keys == m.Keys + {k};
    assert |m[k := v]| == |m[k := v].Keys| && |m| == |m.Keys|;
  }

  lemma OneKeyLess<T>(m: map<string, T>, k: string)
    ensures |m - {k}| <= |m|
  {
    assert (m - {k}).Keys == m.Keys - {k};
    assert |m - {k}| == |(m - {k}).Keys| && |m| == |m.Keys|;
  }

  lemma OpenedSlots(s: Store, chat: string, json: Json)
    requires |s.slots| <= OPEN_FILE_CAP
    ensures var o := Opened(s, chat, json);
      && |o.slots| <= OPEN_FILE_CAP && chat in o.slots && o.files == s.files && o.acked == s.acked
      && (chat in s.slots || |s.slots| < OPEN_FILE_CAP ==>
          forall other :: other in s.slots ==> other in o.slots && o.slots[other] == s.slots[other])
  {
    if chat !in s.slots {
      OneMoreKey(s.slots, chat, Scan(TextOf(s, chat), json));
      OneMoreKey(map[], chat, Scan(TextOf(s, chat), json));
    }
  }

  /** Never more than sixteen files are open, over every run; and none is closed for another while
      there is room. */
  lemma {:induction false} FewFilesOpen(s: Store, actions: seq<Action>, json: Json)
    requires |s.slots| <= OPEN_FILE_CAP
    ensures |Runs(s, actions, json).slots| <= OPEN_FILE_CAP
  {
    if actions != [] {
      var before, a := Runs(s, actions[..|actions| - 1], json), actions[|actions| - 1];
      FewFilesOpen(s, actions[..|actions| - 1], json);
      StepSlots(before, a, json);
    }
  }

  lemma StepSlots(s: Store, a: Action, json: Json)
    requires |s.slots| <= OPEN_FILE_CAP
    ensures |Step(s, a, json).slots| <= OPEN_FILE_CAP
  {
    match a
    case Append(chat, e) =>
      OpenedSlots(s, chat, json);
      var o := Opened(s, chat, json);
      assert o.slots[chat := Slot(NextLine(s, chat, e, json).seqNo + 1, false)].Keys == o.slots.Keys;
      assert |Step(s, a, json).slots| == |Step(s, a, json).slots.Keys| && |o.slots| == |o.slots.Keys|;
    case DieAppending(_, _, _) =>
    case Restart =>
    case Discard(chat) => OneKeyLess(s.slots, chat);
  }

  class RunJournal {
    const json: Json
    var files: map<string, string>
    var openFiles: map<string, Slot>
    ghost var acked: map<string, seq<Line>>

    ghost function State(): Store reads this { Store(files, openFiles, acked) }

    constructor (json: Json, files: map<string, string>)
      ensures this.json == json && State() == Store(files, map[], map[])
    {
      this.json, this.files, openFiles, acked := json, files, map[], map[];
    }

    method FindBreak(text: string, off: nat) returns (end: nat)
      requires off <= |text|
      ensures off <= end <= |text| && (forall i :: off <= i < end ==> text[i] != '\n')
      ensures end < |text| ==> text[end] == '\n'
    {
      end := off;
      while end < |text| && text[end] != '\n'
        invariant off <= end <= |text| && forall i :: off <= i < end ==> text[i] != '\n'
      {
        end := end + 1;
      }
    }

    method ReadLines(text: string) returns (out: seq<Line>)
      ensures out == Lines(text, json)
    {
      out := [];
      var off := 0;
      assert text[0..] == text;
      while off < |text|
        invariant off <= |text| && out + Lines(text[off..], json) == Lines(text, json)
      {
        var end := FindBreak(text, off);
        var parsed := json.parse(text[off..end]);
        var line := if parsed.Some? then [parsed.value] else [];
        LinesFrom(text, off, end, json);
        Reassociated(out, line, if end == |text| then [] else Lines(text[end + 1..], json));
        out := out + line;
        off := if end == |text| then end else end + 1;
      }
      assert text[off..] == "";
    }

    method ScanTail(chat: string) returns (slot: Slot)
      ensures slot == Scan(TextOf(State(), chat), json)
    {
      if Sanitize(chat) !in files { return Slot(1, false); }
      var text := files[Sanitize(chat)];
      var lines := ReadLines(text);
      slot := Slot(if lines == [] then 1 else lines[|lines| - 1].seqNo + 1, |text| > 0 && text[|text| - 1] != '\n');
    }

    method OpenFile(chat: string)
      modifies `openFiles
      ensures State() == Opened(old(State()), chat, json)
    {
      if chat in openFiles { return; }
      if |openFiles| >= OPEN_FILE_CAP { openFiles := map[]; }
      var slot := ScanTail(chat);
      openFiles := openFiles[chat := slot];
    }

    method AppendEvent(chat: string, event: AgentEvent) returns (seqNo: nat)
      modifies this
      ensures State() == Appended(old(State()), chat, event, json)
      ensures seqNo == NextLine(old(State()), chat, event, json).seqNo
    {
      OpenFile(chat);
      var slot := openFiles[chat];
      seqNo := slot.nextSeq;
      var line := json.render(Line(seqNo, event));
      var buf := (if slot.needsNewline then "\n" else "") + line + "\n";
      var path := Sanitize(chat);
      files := files[path := (if path in files then files[path] else "") + buf];
      openFiles := openFiles[chat := Slot(seqNo + 1, false)];
      acked := acked[chat := AckedOf(old(State()), chat) + [Line(seqNo, event)]];
    }

    method Replay(chat: string, cursor: nat) returns (out: seq<Line>)
      ensures out == Replayed(Lines(TextOf(State(), chat), json), cursor)
    {
      if Sanitize(chat) !in files { return []; }
      var all := ReadLines(files[Sanitize(chat)]);
      var last := if all == [] then 0 else all[|all| - 1].seqNo;
      var from := if cursor > last then 0 else cursor;
      out := FilterAfter(all, from);
    }

    method FilterAfter(all: seq<Line>, from: nat) returns (out: seq<Line>)
      ensures out == After(all, from)
    {
      out := [];
      for i := 0 to |all|
        invariant out == After(all[..i], from)
      {
        assert all[..i + 1][..i] == all[..i];
        if all[i].seqNo > from { out := out + [all[i]]; }
      }
      assert all[..|all|] == all;
    }

    /** The files whose last readable event does not end the run, sorted. */
    method StaleSessions() returns (stale: seq<string>)
      ensures forall f :: f in stale <==>
        f in files && Unfinished(Lines(files[f], json))
      ensures forall i, j :: 0 <= i < j < |stale| ==> Below(stale[i], stale[j])
    {
      var found: set<string> := {};
      var rest := files.Keys;
      while rest != {}
        invariant rest <= files.Keys
        invariant forall f :: f in found <==> f in files && f !in rest && Unfinished(Lines(files[f], json))
        decreases |rest|
      {
        var f :| f in rest;
        var lines := ReadLines(files[f]);
        if Unfinished(lines) { found := found + {f}; }
        rest := rest - {f};
      }
      stale := Sort(found);
    }
  }

  predicate Unfinished(lines: seq<Line>) { lines != [] && lines[|lines| - 1].event.Ongoing? }

  /** After a chat's append returned and whatever deaths followed on other chats or none on its
      own, recovery finds its file exactly when that event did not end the run. */
  lemma LastAppendDecidesStale(s: Store, chat: string, e: AgentEvent, json: Json)
    requires Sound(json) && Intact(s, chat, json)
    ensures Unfinished(Lines(TextOf(Appended(s, chat, e, json), chat), json)) <==> e.Ongoing?
  {
    BufferIsWritten(s, chat, e, json);
    FullWrite(TextOf(s, chat), NextLine(s, chat, e, json), json);
  }

  /** A discarded chat starts over: its file is gone, its next line is the first, and no other file
      is touched. */
  lemma DiscardStartsOver(s: Store, chat: string, e: AgentEvent, other: string, json: Json)
    ensures var d := Step(s, Discard(chat), json);
      && Sanitize(chat) !in d.files && AckedOf(d, chat) == []
      && NextLine(d, chat, e, json) == Line(1, e)
      && (Sanitize(other) != Sanitize(chat) ==> TextOf(d, other) == TextOf(s, other) && AckedOf(d, other) == AckedOf(s, other))
  {
    var d := Step(s, Discard(chat), json);
    FirstLine(d, chat, e, json);
    if Sanitize(other) != Sanitize(chat) { OthersUntouched(s, Discard(chat), other, json); }
  }

  lemma FirstLine(s: Store, chat: string, e: AgentEvent, json: Json)
    requires TextOf(s, chat) == "" && chat !in s.slots
    ensures NextLine(s, chat, e, json) == Line(1, e)
  {
    assert Lines("", json) == [];
  }
}
