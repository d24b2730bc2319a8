// The per-client conversation log of the multi-user AI helper: a bounded byte buffer of
// "ROLE: text" lines, and the parser that turns it back into messages.

module ChatLog {
  import opened Bytes

  const CAPACITY := 1024 * 1024
  const RECORD_SIZE := 4096
  const CONTENT_SIZE := 4096

  datatype Role = User | Assistant
  datatype Record = Record(role: Role, text: seq<byte>)

  const USER: seq<byte> := [85, 83, 69, 82, 58, 32]
  const ASSISTANT: seq<byte> := [65, 83, 83, 73, 83, 84, 65, 78, 84, 58, 32]

  function Prefix(role: Role): seq<byte> {
    match role
    case User => USER
    case Assistant => ASSISTANT
  }

  // A record as it is printed into the log.
  function Line(r: Record): seq<byte> {
    Prefix(r.role) + r.text + [NEWLINE]
  }

  function LogBytes(rs: seq<Record>): seq<byte> {
    if rs == [] then [] else Line(rs[0]) + LogBytes(rs[1..])
  }

  predicate OneLine(r: Record) {
    NEWLINE !in r.text
  }

  predicate Fits(r: Record) {
    |Line(r)| < RECORD_SIZE
  }

  // Lines go from the front until `need` more bytes and a terminator fit.
  function Evict(log: seq<byte>, need: nat): seq<byte>
    decreases |log|
  {
    if |log| + need < CAPACITY then log
    else
      var p := IndexOf(log, NEWLINE);
      if p < 0 then [] else Evict(log[p + 1..], need)
  }

  function Appended(log: seq<byte>, r: Record): seq<byte> {
    Evict(log, |Line(r)|) + Line(r)
  }

  // The log after appending all of `rs` to an empty one.
  function LogAfter(rs: seq<Record>): seq<byte> {
    if rs == [] then [] else Appended(LogAfter(rs[..|rs| - 1]), rs[|rs| - 1])
  }

  // The longest suffix of whole records that stays below the capacity.
  function Retained(rs: seq<Record>): seq<Record> {
    if |LogBytes(rs)| < CAPACITY then rs else Retained(rs[1..])
  }

  lemma {:induction false} RetainedIsTheLongestSuffix(rs: seq<Record>) returns (k: nat)
    ensures k <= |rs| && Retained(rs) == rs[k..] && |LogBytes(rs[k..])| < CAPACITY
    ensures forall i :: 0 <= i < k ==> |LogBytes(rs[i..])| >= CAPACITY
  {
    assert rs[0..] == rs;
    if |LogBytes(rs)| < CAPACITY {
      k := 0;
    } else {
      var m := RetainedIsTheLongestSuffix(rs[1..]);
      k := m + 1;
      assert rs[1..][m..] == rs[k..];
      forall i | 1 <= i < k
        ensures |LogBytes(rs[i..])| >= CAPACITY
      {
        assert rs[1..][i - 1..] == rs[i..];
      }
    }
  }

  lemma NothingRetained()
    ensures LogBytes(Retained([])) == []
  {
  }

  lemma NoRecords()
    ensures LogBytes([]) == []
  {
  }

  lemma FirstNewline(head: seq<byte>, tail: seq<byte>)
    requires NEWLINE !in head
    ensures IndexOf(head + [NEWLINE] + tail, NEWLINE) == |head|
    ensures (head + [NEWLINE] + tail)[|head| + 1..] == tail
  {
    var s := head + [NEWLINE] + tail;
    assert s[|head|] == NEWLINE;
    assert forall i :: 0 <= i < |head| ==> s[i] == head[i];
  }

  lemma LogStartsWithARecord(rs: seq<Record>)
    requires rs != [] && OneLine(rs[0])
    ensures
      var p := IndexOf(LogBytes(rs), NEWLINE);
      p >= 0 && LogBytes(rs)[..p] == Prefix(rs[0].role) + rs[0].text && LogBytes(rs)[p + 1..] == LogBytes(rs[1..])
  {
    var head := Prefix(rs[0].role) + rs[0].text;
    FirstNewline(head, LogBytes(rs[1..]));
    assert LogBytes(rs)[..|head|] == head;
  }

  lemma {:induction false} LogBytesAppend(rs: seq<Record>, r: Record)
    ensures LogBytes(rs + [r]) == LogBytes(rs) + Line(r)
  {
    hide Line;
    if rs == [] {
      assert rs + [r] == [r] && [r][1..] == [];
      assert LogBytes([r]) == Line(r) + [];
    } else {
      LogBytesAppend(rs[1..], r);
      assert (rs + [r])[1..] == rs[1..] + [r];
      assert Line(rs[0]) + (LogBytes(rs[1..]) + Line(r)) == Line(rs[0]) + LogBytes(rs[1..]) + Line(r);
    }
  }

  // Evicting bytes up to a newline is evicting whole records.
  lemma {:induction false} AppendingEvictsRecords(rs: seq<Record>, r: Record)
    requires (forall x :: x in rs ==> OneLine(x)) && Fits(r)
    ensures Appended(LogBytes(rs), r) == LogBytes(Retained(rs + [r]))
  {
    hide Line;
    LogBytesAppend(rs, r);
    if |LogBytes(rs + [r])| >= CAPACITY {
      assert rs != [];
      LogStartsWithARecord(rs);
      AppendingEvictsRecords(rs[1..], r);
      assert (rs + [r])[1..] == rs[1..] + [r];
    }
  }

  lemma {:induction false} RetainedStays(rs: seq<Record>, r: Record)
    ensures Retained(Retained(rs) + [r]) == Retained(rs + [r])
    decreases |rs|
  {
    hide LogBytes, Line;
    if |LogBytes(rs)| >= CAPACITY {
      NoRecords();
      RetainedStays(rs[1..], r);
      LogBytesAppend(rs, r);
      assert (rs + [r])[1..] == rs[1..] + [r];
    }
  }

  lemma {:induction false} RetainedAreAmongThem(rs: seq<Record>)
    ensures forall r :: r in Retained(rs) ==> r in rs
  {
    hide LogBytes;
    if |LogBytes(rs)| >= CAPACITY {
      NoRecords();
      RetainedAreAmongThem(rs[1..]);
      assert forall r :: r in rs[1..] ==> r in rs;
    }
  }

  // After any run of appends the log is exactly the longest suffix of whole records below capacity.
  lemma {:induction false} LogHoldsTheLongestSuffix(rs: seq<Record>)
    requires forall r :: r in rs ==> OneLine(r) && Fits(r)
    ensures LogAfter(rs) == LogBytes(Retained(rs))
  {
    hide Retained, LogBytes, Appended, OneLine, Fits;
    if rs == [] {
      NothingRetained();
    } else {
      var init, last := rs[..|rs| - 1], rs[|rs| - 1];
      LogHoldsTheLongestSuffix(init);
      RetainedAreAmongThem(init);
      AppendingEvictsRecords(Retained(init), last);
      RetainedStays(init, last);
      assert rs == init + [last];
    }
  }

  // ----- texts of any number of lines -----

  // A line begins at position `k`, or the log ends there.
  predicate LineStart(log: seq<byte>, k: nat) {
    k <= |log| && (k > 0 ==> log[k - 1] == NEWLINE)
  }

  // From `k` on lie the most whole lines that leave room for `need` more bytes.
  ghost predicate MostLines(log: seq<byte>, need: nat, k: nat) {
    && LineStart(log, k) && |log| - k + need < CAPACITY
    && forall i: nat :: i < k && LineStart(log, i) ==> |log| - i + need >= CAPACITY
  }

  predicate Ended(log: seq<byte>) {
    log != [] ==> log[|log| - 1] == NEWLINE
  }

  lemma LaterLineStarts(log: seq<byte>, k: nat, i: nat)
    requires k <= |log| && LineStart(log, k)
    ensures LineStart(log[k..], i) <==> LineStart(log, k + i)
  {
  }

  lemma SkippingALine(log: seq<byte>, need: nat, p: nat, k: nat)
    requires p < |log| && log[p] == NEWLINE && (forall i :: 0 <= i < p ==> log[i] != NEWLINE)
    requires |log| + need >= CAPACITY && MostLines(log[p + 1..], need, k)
    ensures MostLines(log, need, p + 1 + k) && log[p + 1..][k..] == log[p + 1 + k..]
  {
    LaterLineStarts(log, p + 1, k);
    forall i: nat | 0 < i < p + 1 + k && LineStart(log, i)
      ensures |log| - i + need >= CAPACITY
    {
      assert i > p;
      LaterLineStarts(log, p + 1, i - (p + 1));
    }
  }

  lemma FirstLineOf(log: seq<byte>)
    requires Ended(log) && log != []
    ensures
      var p := IndexOf(log, NEWLINE);
      && 0 <= p < |log| && log[p] == NEWLINE && (forall i :: 0 <= i < p ==> log[i] != NEWLINE)
      && Ended(log[p + 1..])
  {
  }

  lemma {:induction false} EvictKeepsMostLines(log: seq<byte>, need: nat) returns (k: nat)
    requires Ended(log) && need < CAPACITY
    ensures MostLines(log, need, k) && k <= |log| && Evict(log, need) == log[k..]
    decreases |log|
  {
    hide MostLines, Evict, IndexOf, Ended;
    if |log| + need < CAPACITY {
      k := 0;
      assert log[0..] == log;
      AllLinesFit(log, need);
      EvictNone(log, need);
    } else {
      var p := IndexOf(log, NEWLINE);
      FirstLineOf(log);
      var j := EvictKeepsMostLines(log[p + 1..], need);
      SkippingALine(log, need, p, j);
      EvictOne(log, need);
      k := p + 1 + j;
    }
  }

  lemma AllLinesFit(log: seq<byte>, need: nat)
    requires |log| + need < CAPACITY
    ensures MostLines(log, need, 0)
  {
  }

  // Evicting a log that was already cut, to make room for one more record, cuts the whole right.
  lemma CutTwice(log: seq<byte>, k: nat, j: nat, line: seq<byte>)
    requires MostLines(log, 0, k) && MostLines(log[k..], |line|, j)
    ensures MostLines(log + line, 0, k + j) && (log + line)[k + j..] == log[k..][j..] + line
  {
    LaterLineStarts(log, k, j);
    forall i: nat | i < k + j && LineStart(log + line, i)
      ensures |log + line| - i >= CAPACITY
    {
      assert LineStart(log, i);
      if i >= k {
        LaterLineStarts(log, k, i - k);
      }
    }
  }

  lemma {:induction false} LogBytesEnd(rs: seq<Record>)
    ensures Ended(LogBytes(rs))
  {
    if rs != [] {
      LogBytesEnd(rs[1..]);
    }
  }

  lemma EndedFromLineStart(log: seq<byte>, k: nat)
    requires Ended(log) && k <= |log|
    ensures Ended(log[k..])
  {
  }

  lemma LineIsShort(r: Record)
    requires Fits(r)
    ensures |Line(r)| < CAPACITY
  {
  }

  // After any run of appends, of texts of any number of lines, the log holds the last lines of
  // everything appended: as many whole ones as stay below the capacity.
  lemma {:induction false} LogHoldsTheMostLines(rs: seq<Record>) returns (k: nat)
    requires forall r :: r in rs ==> Fits(r)
    ensures MostLines(LogBytes(rs), 0, k) && LogAfter(rs) == LogBytes(rs)[k..]
  {
    hide LogBytes, Evict, MostLines, Fits, Line, Ended;
    if rs == [] {
      NoRecords();
      AllLinesFit([], 0);
      k := 0;
    } else {
      var init, r := rs[..|rs| - 1], rs[|rs| - 1];
      k := LogHoldsTheMostLines(init);
      WithinTheLog(LogBytes(init), k);
      LogBytesEnd(init);
      EndedFromLineStart(LogBytes(init), k);
      LineIsShort(r);
      var j := EvictKeepsMostLines(LogBytes(init)[k..], |Line(r)|);
      CutTwice(LogBytes(init), k, j, Line(r));
      LogBytesAppend(init, r);
      assert rs == init + [r];
      k := k + j;
    }
  }

  lemma WithinTheLog(log: seq<byte>, k: nat)
    requires MostLines(log, 0, k)
    ensures k <= |log| && |log| - k < CAPACITY
  {
  }

  lemma {:induction false} LogBytesSplit(rs: seq<Record>, i: nat)
    requires i <= |rs|
    ensures LogBytes(rs) == LogBytes(rs[..i]) + LogBytes(rs[i..])
  {
    hide Line;
    if i == 0 {
      assert rs[0..] == rs;
    } else {
      LogBytesSplit(rs[1..], i - 1);
      assert rs[..i][1..] == rs[1..][..i - 1] && rs[1..][i - 1..] == rs[i..];
      Regroup(Line(rs[0]), LogBytes(rs[..i][1..]), LogBytes(rs[i..]));
    }
  }

  // Records begin at line starts.
  lemma RecordStart(rs: seq<Record>, i: nat)
    requires i <= |rs|
    ensures LineStart(LogBytes(rs), |LogBytes(rs[..i])|)
    ensures LogBytes(rs)[|LogBytes(rs[..i])|..] == LogBytes(rs[i..])
    ensures |LogBytes(rs)| == |LogBytes(rs[..i])| + |LogBytes(rs[i..])|
  {
    hide LogBytes;
    LogBytesSplit(rs, i);
    LogBytesEnd(rs[..i]);
  }

  // Position `k` of everything appended is the first line of a record, or the end.
  ghost predicate BeginsARecord(rs: seq<Record>, k: nat) {
    exists i: nat :: i <= |rs| && |LogBytes(rs[..i])| == k
  }

  // Every record that can be kept whole is kept, and the log consists of whole records exactly when its
  // first line is the first line of a record.
  lemma LogIsOfWholeRecordsExactly(rs: seq<Record>, k: nat)
    requires (forall r :: r in rs ==> Fits(r)) && MostLines(LogBytes(rs), 0, k)
    ensures k <= |LogBytes(rs)| && LogAfter(rs) == LogBytes(rs)[k..]
    ensures |LogBytes(Retained(rs))| <= |LogAfter(rs)|
    ensures LogBytes(Retained(rs)) == LogAfter(rs)[|LogAfter(rs)| - |LogBytes(Retained(rs))|..]
    ensures LogAfter(rs) == LogBytes(Retained(rs)) <==> BeginsARecord(rs, k)
  {
    hide LogBytes, Retained, LogAfter, MostLines, Fits, LineStart;
    var k' := LogHoldsTheMostLines(rs);
    MostLinesOnce(LogBytes(rs), k, k');
    var i := RetainedIsTheLongestSuffix(rs);
    RecordStart(rs, i);
    LinesBefore(LogBytes(rs), k, |LogBytes(rs[..i])|);
    if BeginsARecord(rs, k) {
      var j: nat :| j <= |rs| && |LogBytes(rs[..j])| == k;
      RecordStart(rs, j);
      ShorterFromLater(rs, i, j);
    }
  }

  lemma MostLinesOnce(log: seq<byte>, k: nat, k': nat)
    requires MostLines(log, 0, k) && MostLines(log, 0, k')
    ensures k == k' <= |log| && |log| - k < CAPACITY
  {
  }

  // A line start below the capacity comes no sooner than the most lines do.
  lemma LinesBefore(log: seq<byte>, k: nat, i: nat)
    requires MostLines(log, 0, k) && LineStart(log, i) && |log| - i < CAPACITY
    ensures k <= i <= |log|
    ensures log[i..] == log[k..][i - k..] && |log[k..]| - |log[i..]| == i - k
  {
  }

  lemma ShorterFromLater(rs: seq<Record>, i: nat, j: nat)
    requires i <= |rs| && j <= |rs|
    ensures i <= j ==> |LogBytes(rs[..i])| <= |LogBytes(rs[..j])|
    ensures i < j ==> |LogBytes(rs[j..])| <= |LogBytes(rs[i..])|
  {
    hide LogBytes;
    if i <= j {
      LogBytesSplit(rs[..j], i);
      LogBytesSplit(rs[i..], j - i);
      assert rs[..j][..i] == rs[..i] && rs[i..][j - i..] == rs[j..];
    }
  }

  // A text of several lines may be cut: evicting its first line leaves the others at the front.
  lemma RecordsOfSeveralLinesAreCut(role: Role, first: seq<byte>, others: seq<byte>, rest: seq<byte>, need: nat)
    requires NEWLINE !in first
    requires |others + [NEWLINE] + rest| + need < CAPACITY
    requires |Line(Record(role, first + [NEWLINE] + others)) + rest| + need >= CAPACITY
    ensures Evict(Line(Record(role, first + [NEWLINE] + others)) + rest, need) == others + [NEWLINE] + rest
  {
    hide Evict;
    var head, tail := Prefix(role) + first, others + [NEWLINE] + rest;
    var log := head + [NEWLINE] + tail;
    assert Line(Record(role, first + [NEWLINE] + others)) + rest == log;
    FirstNewline(head, tail);
    EvictOne(log, need);
    EvictNone(tail, need);
  }

  lemma EvictOne(log: seq<byte>, need: nat)
    requires |log| + need >= CAPACITY && IndexOf(log, NEWLINE) >= 0
    ensures Evict(log, need) == Evict(log[IndexOf(log, NEWLINE) + 1..], need)
  {
  }

  lemma EvictNone(log: seq<byte>, need: nat)
    requires |log| + need < CAPACITY
    ensures Evict(log, need) == log
  {
  }

  // As much of the text as the fixed buffer holds beside its terminator.
  function Clip(text: seq<byte>): (t: seq<byte>)
    ensures t <= text && |t| < CONTENT_SIZE && (t == text || |t| == CONTENT_SIZE - 1)
  {
    if |text| >= CONTENT_SIZE then text[..CONTENT_SIZE - 1] else text
  }

  // The message in one line, if it starts with a role and says something.
  function Message(line: seq<byte>): seq<Record> {
    if |line| > 6 && line[..6] == USER then [Record(User, Clip(line[6..]))]
    else if |line| > 11 && line[..11] == ASSISTANT then [Record(Assistant, Clip(line[11..]))]
    else []
  }

  function Messages(log: seq<byte>): seq<Record>
    decreases |log|
  {
    if log == [] then []
    else
      var p := IndexOf(log, NEWLINE);
      if p < 0 then Message(log) else Message(log[..p]) + Messages(log[p + 1..])
  }

  // A text the log gives back unchanged.
  predicate Recoverable(text: seq<byte>) {
    NEWLINE !in text && 0 < |text| < CONTENT_SIZE
  }

  lemma MessageOfRecord(r: Record)
    requires OneLine(r)
    ensures Message(Prefix(r.role) + r.text) == if r.text == [] then [] else [Record(r.role, Clip(r.text))]
  {
    var line := Prefix(r.role) + r.text;
    assert line[..|Prefix(r.role)|] == Prefix(r.role) && line[|Prefix(r.role)|..] == r.text;
    assert r.role.Assistant? && |line| > 6 ==> line[..6][0] == 65;
  }

  lemma MessageIsRecoverable(line: seq<byte>)
    requires NEWLINE !in line
    ensures forall m :: m in Message(line) ==> Recoverable(m.text)
  {
    if |line| > 6 {
      ClipIsRecoverable(line, 6);
    }
    if |line| > 11 {
      ClipIsRecoverable(line, 11);
    }
  }

  lemma ClipIsRecoverable(line: seq<byte>, k: nat)
    requires NEWLINE !in line && k < |line|
    ensures Recoverable(Clip(line[k..]))
  {
  }

  lemma {:induction false} ParsedTextsAreRecoverable(log: seq<byte>)
    ensures forall m :: m in Messages(log) ==> Recoverable(m.text)
    decreases |log|
  {
    hide Message, Messages, Recoverable;
    NoMessages();
    if log != [] {
      var p := IndexOf(log, NEWLINE);
      FirstMessage(log);
      MessageIsRecoverable(if p < 0 then log else log[..p]);
      if p >= 0 {
        ParsedTextsAreRecoverable(log[p + 1..]);
      }
    }
  }

  lemma {:induction false} RecoversRecoverableTexts(rs: seq<Record>)
    requires forall r :: r in rs ==> Recoverable(r.text)
    ensures Messages(LogBytes(rs)) == rs
  {
    if rs != [] {
      assert Recoverable(rs[0].text);
      LogStartsWithARecord(rs);
      MessageOfRecord(rs[0]);
      RecoversRecoverableTexts(rs[1..]);
      assert rs == [rs[0]] + rs[1..];
    }
  }

  // The parser recovers the logged conversation exactly when every text is a recoverable one.
  lemma ParserRecoversExactlyTheRecoverable(rs: seq<Record>)
    ensures Messages(LogBytes(rs)) == rs <==> forall r :: r in rs ==> Recoverable(r.text)
  {
    ParsedTextsAreRecoverable(LogBytes(rs));
    if forall r :: r in rs ==> Recoverable(r.text) {
      RecoversRecoverableTexts(rs);
    }
  }

  // Appending any conversation and reading the log back gives its longest suffix that fits.
  lemma ConversationIsRecovered(rs: seq<Record>)
    requires forall r :: r in rs ==> Recoverable(r.text) && Fits(r)
    ensures Messages(LogAfter(rs)) == Retained(rs)
  {
    LogHoldsTheLongestSuffix(rs);
    RetainedAreAmongThem(rs);
    RecoversRecoverableTexts(Retained(rs));
  }

  lemma NoMessages()
    ensures Messages([]) == []
  {
  }

  lemma FirstMessage(log: seq<byte>)
    requires log != []
    ensures
      var p := IndexOf(log, NEWLINE);
      Messages(log) == if p < 0 then Message(log) else Message(log[..p]) + Messages(log[p + 1..])
  {
  }

  // The messages from position `ptr` on.
  function MessagesFrom(log: seq<byte>, ptr: nat): seq<Record> {
    if ptr < |log| then Messages(log[ptr..]) else []
  }

  lemma MessagesFromStart(log: seq<byte>)
    ensures MessagesFrom(log, 0) == Messages(log)
  {
    assert log[0..] == log;
  }

  lemma NothingFromTheEnd(log: seq<byte>, ptr: nat)
    requires ptr >= |log|
    ensures MessagesFrom(log, ptr) == []
  {
  }

  lemma NextMessage(log: seq<byte>, ptr: nat)
    requires ptr < |log|
    ensures
      var p := IndexOf(log[ptr..], NEWLINE);
      var lineEnd := if p < 0 then |log| else ptr + p;
      MessagesFrom(log, ptr) == Message(log[ptr..lineEnd]) + MessagesFrom(log, lineEnd + 1)
  {
    hide Message, Messages;
    var p := IndexOf(log[ptr..], NEWLINE);
    FirstMessage(log[ptr..]);
    NoMessages();
    if p >= 0 {
      SliceOfRest(log, ptr, p);
      SliceOfRest(log, ptr, p + 1);
      assert ptr + p + 1 == |log| ==> log[ptr + p + 1..] == [];
    } else {
      assert log[ptr..] == log[ptr..|log|];
    }
  }

  class Log {
    const mem: array<byte>
    var used: nat

    ghost predicate Valid()
      reads this, mem
    {
      mem.Length == CAPACITY && used < CAPACITY && mem[used] == NUL
    }

    ghost function Contents(): seq<byte>
      requires used <= mem.Length
      reads this, mem
    {
      mem[..used]
    }

    constructor ()
      ensures Valid() && fresh(mem) && Contents() == []
    {
      mem := new byte[CAPACITY](_ => NUL);
      used := 0;
    }

    // Drop the first `n` bytes.
    method DropFront(n: nat)
      requires Valid() && n <= used
      modifies this`used, mem
      ensures Valid() && Contents() == old(Contents())[n..]
    {
      forall k | 0 <= k < used - n {
        mem[k] := mem[n + k];
      }
      used := used - n;
      mem[used] := NUL;
    }

    // Drop lines until `need` more bytes fit.
    method MakeRoom(need: nat)
      requires Valid() && need < CAPACITY
      modifies this`used, mem
      ensures Valid() && used + need < CAPACITY && Contents() == Evict(old(Contents()), need)
    {
      while used + need >= CAPACITY
        invariant Valid() && Evict(Contents(), need) == Evict(old(Contents()), need)
        decreases used
      {
        var p := IndexOf(mem[..used], NEWLINE);
        if p < 0 {
          used := 0;
          mem[0] := NUL;
          break;
        }
        DropFront(p + 1);
      }
    }

    method Append(r: Record)
      requires Valid() && Fits(r)
      modifies this`used, mem
      ensures Valid() && Contents() == Appended(old(Contents()), r)
    {
      hide Evict, Line;
      var line := Line(r);
      MakeRoom(|line|);
      forall k | 0 <= k < |line| {
        mem[used + k] := line[k];
      }
      used := used + |line|;
      mem[used] := NUL;
    }

    method BuildMessages() returns (messages: seq<Record>)
      requires Valid()
      ensures messages == Messages(Contents())
    {
      hide Message, Messages, MessagesFrom;
      ghost var all := Contents();
      messages := [];
      var ptr := 0;
      MessagesFromStart(all);
      while ptr < used
        invariant Contents() == all && Messages(all) == messages + MessagesFrom(all, ptr)
      {
        NextMessage(all, ptr);
        SliceOfCells(mem, used, ptr, used);
        var p := IndexOf(mem[ptr..used], NEWLINE);
        var lineEnd := if p < 0 then used else ptr + p;
        SliceOfCells(mem, used, ptr, lineEnd);
        messages := messages + Message(mem[ptr..lineEnd]);
        ptr := lineEnd + 1;
      }
      NothingFromTheEnd(all, ptr);
    }
  }
}
