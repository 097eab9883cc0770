/** Rooms as strings: the broadcast subject of a room and the number inside a conversation room. */
module RoomCodec {
  import opened Common

  // ---------- strings.Split and strings.Join with a one-character separator ----------

  /** The parts of a string that starts with c, given the parts of the rest. */
  function AddChar(c: char, rest: seq<string>, sep: char): seq<string>
    requires |rest| >= 1
  {
    if c == sep then [""] + rest else [[c] + rest[0]] + rest[1..]
  }

  function Split(s: string, sep: char): (parts: seq<string>)
    ensures |parts| >= 1
  {
    if s == "" then [""] else AddChar(s[0], Split(s[1..], sep), sep)
  }

  function Join(parts: seq<string>, sep: char): string {
    if |parts| == 0 then ""
    else if |parts| == 1 then parts[0]
    else parts[0] + [sep] + Join(parts[1..], sep)
  }

  lemma {:induction false} JoinSplit(s: string, sep: char)
    ensures Join(Split(s, sep), sep) == s
    decreases |s|
  {
    if s != "" {
      JoinSplit(s[1..], sep);
      JoinAddChar(s[0], Split(s[1..], sep), sep);
    }
  }

  lemma JoinAddChar(c: char, rest: seq<string>, sep: char)
    requires |rest| >= 1
    ensures Join(AddChar(c, rest, sep), sep) == [c] + Join(rest, sep)
  {
    if c == sep {
      assert ([""] + rest)[1..] == rest;
    } else {
      assert ([[c] + rest[0]] + rest[1..])[1..] == rest[1..];
    }
  }

  lemma AddCharConcat(c: char, a: seq<string>, b: seq<string>, sep: char)
    requires |a| >= 1
    ensures AddChar(c, a + b, sep) == AddChar(c, a, sep) + b
  {
  }

  /** Splitting works piece by piece. */
  lemma {:induction false} SplitConcat(a: string, b: string, sep: char)
    ensures Split(a + [sep] + b, sep) == Split(a, sep) + Split(b, sep)
    decreases |a|
  {
    if a == "" {
      assert a + [sep] + b == [sep] + b;
      assert ([sep] + b)[1..] == b;
    } else {
      var whole := a + [sep] + b;
      assert whole[0] == a[0] && whole[1..] == a[1..] + [sep] + b;
      SplitConcat(a[1..], b, sep);
      AddCharConcat(a[0], Split(a[1..], sep), Split(b, sep), sep);
    }
  }

  lemma {:induction false} SplitPlain(s: string, sep: char)
    requires sep !in s
    ensures Split(s, sep) == [s]
    decreases |s|
  {
    if s != "" {
      SplitPlain(s[1..], sep);
      assert [s[0]] + s[1..] == s;
    }
  }

  // ---------- Broadcast subjects ----------

  const SUBJECT_PREFIX := "message.broadcast."

  function Subject(room: string): string {
    SUBJECT_PREFIX + room
  }

  function DecodeSubject(subject: string): Option<string> {
    var parts := Split(subject, '.');
    if |parts| < 3 then None else Some(Join(parts[2..], '.'))
  }

  /** Every room, dots included, survives the trip through its subject. */
  lemma SubjectRoundTrip(room: string)
    ensures DecodeSubject(Subject(room)) == Some(room)
  {
    TwoPartsAhead("message", "broadcast", room);
    assert Subject(room) == "message" + ['.'] + ("broadcast" + ['.'] + room);
  }

  lemma TwoPartsAhead(a: string, b: string, room: string)
    requires '.' !in a && '.' !in b
    ensures DecodeSubject(a + ['.'] + (b + ['.'] + room)) == Some(room)
  {
    SplitConcat(a, b + ['.'] + room, '.');
    SplitConcat(b, room, '.');
    SplitPlain(a, '.');
    SplitPlain(b, '.');
    assert ([a] + ([b] + Split(room, '.')))[2..] == Split(room, '.');
    JoinSplit(room, '.');
  }

  lemma {:induction false} PartsArePlain(s: string, sep: char)
    ensures forall i :: 0 <= i < |Split(s, sep)| ==> sep !in Split(s, sep)[i]
    decreases |s|
  {
    if s != "" {
      PartsArePlain(s[1..], sep);
    }
  }

  /** A subject with fewer than two dots names no room; any other names what follows the second. */
  lemma DecodeSubjectExact(subject: string) returns (a: string, b: string)
    ensures DecodeSubject(subject).Some? ==>
      '.' !in a && '.' !in b && subject == a + ['.'] + (b + ['.'] + DecodeSubject(subject).value)
    ensures DecodeSubject(subject).None? ==> '.' !in a && '.' !in b && (subject == a || subject == a + ['.'] + b)
  {
    var parts := Split(subject, '.');
    PartsArePlain(subject, '.');
    JoinSplit(subject, '.');
    a, b := parts[0], if |parts| > 1 then parts[1] else "";
    if |parts| > 2 { assert parts[1..][1..] == parts[2..]; }
  }

  // ---------- Decimal numbers ----------

  const MAX_INT := 0x7fff_ffff_ffff_ffff

  predicate IsDigit(c: char) {
    '0' <= c <= '9'
  }

  function DigitValue(c: char): int {
    c as int - '0' as int
  }

  function Itoa(n: nat): string {
    if n < 10 then [('0' as int + n) as char] else Itoa(n / 10) + Itoa(n % 10)
  }

  predicate AllDigits(s: string) {
    forall i :: 0 <= i < |s| ==> IsDigit(s[i])
  }

  function DigitsValue(s: string): int {
    if s == "" then 0 else DigitsValue(s[..|s| - 1]) * 10 + DigitValue(s[|s| - 1])
  }

  /** strconv.Atoi: an optional sign, then digits only, within the range of a 64-bit int. */
  function Atoi(s: string): Option<int> {
    var signed := s != "" && (s[0] == '+' || s[0] == '-');
    var digits := if signed then s[1..] else s;
    if digits == "" || !AllDigits(digits) then None
    else
      var n := if signed && s[0] == '-' then -DigitsValue(digits) else DigitsValue(digits);
      if -MAX_INT - 1 <= n <= MAX_INT then Some(n) else None
  }

  lemma {:induction false} ItoaExact(n: nat)
    ensures Itoa(n) != "" && AllDigits(Itoa(n)) && DigitsValue(Itoa(n)) == n
    decreases n
  {
    if n >= 10 {
      ItoaExact(n / 10);
      ItoaExact(n % 10);
      assert Itoa(n)[..|Itoa(n)| - 1] == Itoa(n / 10);
    }
  }

  // ---------- Conversation rooms ----------

  datatype RoomError = InvalidFormat | UnsupportedPrefix | NotANumber | InvalidID

  function ParseConversationRoomID(room: string): Result<int, RoomError> {
    var parts := Split(room, ':');
    if |parts| < 2 then Err(InvalidFormat)
    else if parts[0] != "group" && parts[0] != "conversation" then Err(UnsupportedPrefix)
    else
      var id := Atoi(parts[1]);
      if id.None? then Err(NotANumber)
      else if id.value <= 0 then Err(InvalidID)
      else Ok(id.value)
  }

  predicate IsConversationRoom(room: string) {
    "group:" <= room || "conversation:" <= room
  }

  /** For every positive 64-bit number, both spellings of its room parse back to it. */
  lemma RoomRoundTrip(prefix: string, n: int)
    requires prefix == "group" || prefix == "conversation"
    requires 1 <= n <= MAX_INT
    ensures ParseConversationRoomID(prefix + ":" + Itoa(n)) == Ok(n)
    ensures IsConversationRoom(prefix + ":" + Itoa(n))
  {
    ItoaExact(n);
    SplitConcat(prefix, Itoa(n), ':');
    assert ':' !in prefix;
    SplitPlain(prefix, ':');
    SplitPlain(Itoa(n), ':');
    assert Split(prefix + ":" + Itoa(n), ':') == [prefix, Itoa(n)];
    assert prefix + ":" <= prefix + ":" + Itoa(n);
  }

  lemma {:induction false} SplitHead(s: string, sep: char)
    ensures |Split(s, sep)| >= 2 ==> Split(s, sep)[0] + [sep] <= s
    decreases |s|
  {
    if s != "" {
      SplitHead(s[1..], sep);
    }
  }

  lemma SplitCuts(a: string, b: string, sep: char)
    requires sep !in a
    ensures |Split(a + [sep] + b, sep)| >= 2 && Split(a + [sep] + b, sep)[0] == a
  {
    SplitConcat(a, b, sep);
    SplitPlain(a, sep);
  }

  /** The join check guards exactly the rooms whose part before the first colon is one of the two
      prefixes; the number behind it is looked at only then. */
  lemma GuardedIff(room: string)
    ensures IsConversationRoom(room) <==>
      |Split(room, ':')| >= 2 && (Split(room, ':')[0] == "group" || Split(room, ':')[0] == "conversation")
    ensures IsConversationRoom(room) <==>
      ParseConversationRoomID(room) != Err(InvalidFormat) && ParseConversationRoomID(room) != Err(UnsupportedPrefix)
  {
    SplitHead(room, ':');
    if "group:" <= room { CutAfter(room, "group"); }
    if "conversation:" <= room { CutAfter(room, "conversation"); }
  }

  lemma CutAfter(room: string, prefix: string)
    requires ':' !in prefix && prefix + ":" <= room
    ensures |Split(room, ':')| >= 2 && Split(room, ':')[0] == prefix
  {
    var rest := room[|prefix| + 1..];
    assert room == prefix + [':'] + rest;
    SplitCuts(prefix, rest, ':');
  }

  /** What stands between the first colon and the next. */
  function BehindColon(room: string): string {
    var parts := Split(room, ':');
    if |parts| < 2 then "" else parts[1]
  }

  /** A room names conversation n exactly if it is guarded and behind its first colon, up to the next
      one, stands n in decimal, perhaps after a plus sign, and n is a positive 64-bit number. */
  lemma ParsesIff(room: string, n: int)
    ensures ParseConversationRoomID(room) == Ok(n) <==>
      IsConversationRoom(room) && 1 <= n <= MAX_INT && Spells(BehindColon(room), n)
  {
    GuardedIff(room);
    if |Split(room, ':')| >= 2 {
      var text := BehindColon(room);
      if text != "" && text[0] == '-' && AllDigits(text[1..]) { NotNegative(text[1..]); }
    }
  }

  /** A number is refused as invalid exactly if it is a decimal one, but zero or below, and a room as
      malformed exactly if it has no colon. */
  lemma InvalidIDIff(room: string)
    ensures ParseConversationRoomID(room) == Err(InvalidID) <==>
      IsConversationRoom(room) && Atoi(BehindColon(room)).Some? && Atoi(BehindColon(room)).value <= 0
    ensures ParseConversationRoomID(room) == Err(InvalidFormat) <==> ':' !in room
  {
    GuardedIff(room);
    if ':' in room {
      var k :| 0 <= k < |room| && room[k] == ':';
      assert room == room[..k] + [':'] + room[k + 1..];
      SplitConcat(room[..k], room[k + 1..], ':');
    } else {
      SplitPlain(room, ':');
    }
  }

  predicate Spells(text: string, n: int) {
    text != "" && (PlainNumber(text, n) || (text[0] == '+' && PlainNumber(text[1..], n)))
  }

  predicate PlainNumber(text: string, n: int) {
    text != "" && AllDigits(text) && DigitsValue(text) == n
  }

  lemma {:induction false} NotNegative(digits: string)
    requires AllDigits(digits)
    ensures DigitsValue(digits) >= 0
    decreases |digits|
  {
    if digits != "" {
      NotNegative(digits[..|digits| - 1]);
    }
  }

  /** Every room that names a conversation is one that the join check guards. */
  lemma ParsedRoomsAreGuarded(room: string)
    requires ParseConversationRoomID(room).Ok?
    ensures IsConversationRoom(room)
  {
    SplitHead(room, ':');
  }
}
