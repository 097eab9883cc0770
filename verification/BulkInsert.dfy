/** BulkSaveMessages of the Postgres message repository: the multi-row INSERT it builds for a batch,
    what the database makes of its text, and what the callers get back; also the grouping of the
    seen-by rows it reads. */
module BulkInsert {
  import opened Common
  import opened MessageStore
  import opened MessageRepository
  import opened RoomCodec
  import BatchProtocol

  const FIELDS: nat := 9

  /** A value bound to a placeholder. */
  datatype Arg = UuidArg(u: Uuid) | TextArg(s: string) | IntArg(n: int) | TimeArg(t: Time) | NullArg

  function TextOrNull(s: string): Arg {
    if NullString(s).None? then NullArg else TextArg(s)
  }

  function IntOrNull(o: Option<int>): Arg {
    if o.None? then NullArg else IntArg(o.value)
  }

  /** The message with missing timestamps set to the time of the batch. */
  function Filled(m: Message, now: Time): Message {
    m.(createdAt := if m.createdAt == ZERO_TIME then now else m.createdAt,
       updatedAt := if m.updatedAt == ZERO_TIME then now else m.updatedAt)
  }

  function StatusOf(m: Message): string {
    if m.status == "" then "sent" else m.status
  }

  /** The stored columns of a message: sender_id, content, conversation_id, attachment, reply_to_id,
      status, forward_from_id, created_at, updated_at. */
  function Column(m: Message, k: nat): Arg
    requires k < FIELDS
  {
    match k
    case 0 => UuidArg(m.sender)
    case 1 => TextArg(m.content)
    case 2 => IntArg(m.conversation)
    case 3 => TextOrNull(m.attachment)
    case 4 => IntOrNull(m.replyToId)
    case 5 => TextArg(StatusOf(m))
    case 6 => IntOrNull(m.forwardFromId)
    case 7 => TimeArg(m.createdAt)
    case _ => TimeArg(m.updatedAt)
  }

  ghost predicate IsRowOf(row: seq<Arg>, m: Message) {
    |row| == FIELDS && forall k :: 0 <= k < FIELDS ==> row[k] == Column(m, k)
  }

  // ---------- The text of the statement ----------

  function Piece(plain: string, n: nat): string {
    plain + ("$" + Itoa(n))
  }

  /** The placeholders of one message, starting after parameter b. */
  function RowText(b: nat): string {
    Piece("(", b + 1) + Piece("::uuid,", b + 2) + Piece(",", b + 3) + Piece(",", b + 4) + Piece(",", b + 5)
      + Piece(",COALESCE(NULLIF(", b + 6) + Piece(",''),'sent'),", b + 7) + Piece(",", b + 8) + Piece(",", b + 9) + ")"
  }

  const NAMES: seq<string> := [
    "sender_id", "content", "conversation_id", "attachment", "reply_to_id", "status",
    "forward_from_id", "created_at", "updated_at"]
  const INTO := "INSERT INTO messages "
  const VALUES := " VALUES "
  const RETURNING := " RETURNING id,created_at"

  /** An insert into columns listed as given. */
  function Insertion(list: seq<string>, rest: string): string {
    INTO + "(" + RoomCodec.Join(list, ',') + ")" + rest
  }

  function Statement(texts: seq<string>): string {
    Insertion(NAMES, VALUES + RoomCodec.Join(texts, ',') + RETURNING)
  }

  function LeadDigits(s: string): string {
    if s != "" && IsDigit(s[0]) then [s[0]] + LeadDigits(s[1..]) else ""
  }

  /** The parameter numbers in a text, from left to right. */
  function Dollars(s: string): seq<int> {
    if s == "" then []
    else (if s[0] == '$' then [DigitsValue(LeadDigits(s[1..]))] else []) + Dollars(s[1..])
  }

  predicate EndsNumber(s: string) {
    s == "" || !IsDigit(s[0])
  }

  lemma {:induction false} LeadDigitsConcat(a: string, b: string)
    requires EndsNumber(b)
    ensures LeadDigits(a + b) == LeadDigits(a)
    decreases |a|
  {
    if a == "" {
      assert a + b == b;
    } else {
      assert (a + b)[1..] == a[1..] + b;
      LeadDigitsConcat(a[1..], b);
    }
  }

  lemma {:induction false} DollarsConcat(a: string, b: string)
    requires EndsNumber(b)
    ensures Dollars(a + b) == Dollars(a) + Dollars(b)
    decreases |a|
  {
    if a == "" {
      assert a + b == b;
    } else {
      assert (a + b)[0] == a[0] && (a + b)[1..] == a[1..] + b;
      DollarsConcat(a[1..], b);
      LeadDigitsConcat(a[1..], b);
      var first := if a[0] == '$' then [DigitsValue(LeadDigits(a[1..]))] else [];
      assert Dollars(a) == first + Dollars(a[1..]) && Dollars(a + b) == first + Dollars(a[1..] + b);
    }
  }

  lemma {:induction false} DollarsPlain(s: string)
    requires '$' !in s
    ensures Dollars(s) == []
    decreases |s|
  {
    if s != "" {
      DollarsPlain(s[1..]);
    }
  }

  lemma {:induction false} LeadDigitsAll(s: string)
    requires AllDigits(s)
    ensures LeadDigits(s) == s
    decreases |s|
  {
    if s != "" {
      LeadDigitsAll(s[1..]);
    }
  }

  lemma DollarsNumber(n: nat)
    ensures Dollars("$" + Itoa(n)) == [n]
  {
    ItoaExact(n);
    LeadDigitsAll(Itoa(n));
    assert ("$" + Itoa(n))[1..] == Itoa(n);
    assert '$' !in Itoa(n);
    DollarsPlain(Itoa(n));
  }

  lemma DollarsPiece(a: string, plain: string, n: nat)
    requires '$' !in plain && plain != "" && EndsNumber(plain)
    ensures Dollars(a + Piece(plain, n)) == Dollars(a) + [n]
  {
    assert a + Piece(plain, n) == (a + plain) + ("$" + Itoa(n));
    DollarsConcat(a + plain, "$" + Itoa(n));
    DollarsConcat(a, plain);
    DollarsPlain(plain);
    DollarsNumber(n);
  }

  function Numbers(b: nat): seq<int> {
    [b + 1, b + 2, b + 3, b + 4, b + 5, b + 6, b + 7, b + 8, b + 9]
  }

  /** The row of a message holds the nine numbers after b, in order. */
  lemma RowTextNumbers(b: nat)
    ensures Dollars(RowText(b)) == Numbers(b)
  {
    var t2 := Piece("(", b + 1) + Piece("::uuid,", b + 2);
    FirstNumbers(b);
    CommaPieces(t2, b + 3, b + 4);
    var t4 := t2 + Piece(",", b + 3) + Piece(",", b + 4);
    DollarsPiece(t4, ",", b + 5);
    LastNumbers(t4 + Piece(",", b + 5), b);
  }

  lemma FirstNumbers(b: nat)
    ensures Dollars(Piece("(", b + 1) + Piece("::uuid,", b + 2)) == [b + 1, b + 2]
  {
    var t1 := Piece("(", b + 1);
    DollarsPiece("", "(", b + 1);
    assert "" + t1 == t1;
    DollarsPiece(t1, "::uuid,", b + 2);
  }

  lemma CommaPieces(t: string, m: nat, n: nat)
    ensures Dollars(t + Piece(",", m) + Piece(",", n)) == Dollars(t) + [m, n]
  {
    DollarsPiece(t, ",", m);
    DollarsPiece(t + Piece(",", m), ",", n);
  }

  lemma LastNumbers(t: string, b: nat)
    ensures Dollars(t + Piece(",COALESCE(NULLIF(", b + 6) + Piece(",''),'sent'),", b + 7) + Piece(",", b + 8) + Piece(",", b + 9) + ")")
      == Dollars(t) + [b + 6, b + 7, b + 8, b + 9]
  {
    var t6 := t + Piece(",COALESCE(NULLIF(", b + 6);
    DollarsPiece(t, ",COALESCE(NULLIF(", b + 6);
    DollarsPiece(t6, ",''),'sent'),", b + 7);
    var t7 := t6 + Piece(",''),'sent'),", b + 7);
    CommaPieces(t7, b + 8, b + 9);
    CloseParen(t7 + Piece(",", b + 8) + Piece(",", b + 9));
  }

  lemma CloseParen(t: string)
    ensures Dollars(t + ")") == Dollars(t)
  {
    DollarsConcat(t, ")");
    DollarsPlain(")");
  }

  /** `texts` are the rows of consecutive messages, the first of them number `first`. */
  ghost predicate RowTexts(texts: seq<string>, first: nat) {
    forall i :: 0 <= i < |texts| ==> texts[i] == RowText(FIELDS * (first + i))
  }

  ghost predicate HasNumbers(texts: seq<string>, first: nat, i: nat)
    requires i < |texts|
  {
    Dollars(texts[i]) == Numbers(FIELDS * (first + i))
  }

  ghost predicate CountsFrom(ns: seq<int>, first: int, size: int) {
    |ns| == size && forall p :: 0 <= p < |ns| ==> ns[p] == first + p + 1
  }

  lemma CountsOn(a: seq<int>, b: seq<int>, first: int, m: int, n: int)
    requires CountsFrom(a, first, m) && CountsFrom(b, first + m, n)
    ensures CountsFrom(a + b, first, m + n)
  {
  }

  lemma {:induction false} JoinedNumbers(texts: seq<string>, first: nat)
    requires forall i :: 0 <= i < |texts| ==> HasNumbers(texts, first, i)
    ensures CountsFrom(Dollars(RoomCodec.Join(texts, ',')), FIELDS * first, FIELDS * |texts|)
    decreases |texts|
  {
    if texts != [] {
      var rest, next := texts[1..], first + 1;
      assert HasNumbers(texts, first, 0);
      assert CountsFrom(Dollars(texts[0]), FIELDS * first, FIELDS);
      forall i | 0 <= i < |rest| ensures HasNumbers(rest, next, i) {
        assert HasNumbers(texts, first, i + 1);
      }
      JoinedNumbers(rest, next);
      if rest != [] { JoinStep(texts); }
      CountsOn(Dollars(texts[0]), Dollars(RoomCodec.Join(rest, ',')), FIELDS * first, FIELDS, FIELDS * |rest|);
      assert Dollars(texts[0]) + [] == Dollars(texts[0]);
    }
  }

  lemma JoinStep(texts: seq<string>)
    requires |texts| >= 2
    ensures Dollars(RoomCodec.Join(texts, ',')) == Dollars(texts[0]) + Dollars(RoomCodec.Join(texts[1..], ','))
  {
    JoinTwo(texts);
    CommaBetween(texts[0], RoomCodec.Join(texts[1..], ','));
  }

  lemma JoinTwo(texts: seq<string>)
    requires |texts| >= 2
    ensures RoomCodec.Join(texts, ',') == texts[0] + ([','] + RoomCodec.Join(texts[1..], ','))
  {
  }

  lemma CommaBetween(a: string, b: string)
    ensures Dollars(a + ([','] + b)) == Dollars(a) + Dollars(b)
  {
    DollarsConcat(a, [','] + b);
    assert ([','] + b)[1..] == b;
  }

  /** Read from left to right, the parameter numbers in the text of the statement for n messages are
      exactly 1, 2, ..., 9n. */
  lemma StatementNumbers(texts: seq<string>)
    requires RowTexts(texts, 0)
    ensures CountsFrom(Dollars(Statement(texts)), 0, FIELDS * |texts|)
  {
    forall i | 0 <= i < |texts| ensures HasNumbers(texts, 0, i) {
      RowTextNumbers(FIELDS * i);
    }
    JoinedNumbers(texts, 0);
    if texts != [] { StartsWithParen(texts); }
    AroundRows(VALUES, RoomCodec.Join(texts, ','), RETURNING);
    PlainNames();
    AheadOfRest(NAMES, VALUES + RoomCodec.Join(texts, ',') + RETURNING);
  }

  lemma AheadOfRest(list: seq<string>, rest: string)
    requires EndsNumber(rest) && forall i :: 0 <= i < |list| ==> PlainName(list[i])
    ensures Dollars(Insertion(list, rest)) == Dollars(rest)
  {
    var before := INTO + "(" + RoomCodec.Join(list, ',') + ")";
    NotInJoin('$', list, ',');
    assert '$' !in INTO;
    DollarsPlain(before);
    DollarsConcat(before, rest);
  }

  lemma AroundRows(before: string, rows: string, after: string)
    requires '$' !in before && '$' !in after && EndsNumber(rows) && EndsNumber(after)
    ensures Dollars(before + rows + after) == Dollars(rows)
  {
    DollarsConcat(before + rows, after);
    DollarsConcat(before, rows);
    DollarsPlain(before);
    DollarsPlain(after);
  }

  lemma StartsWithParen(texts: seq<string>)
    requires RowTexts(texts, 0) && texts != []
    ensures EndsNumber(RoomCodec.Join(texts, ','))
  {
    RowStarts(FIELDS * (0 + 0));
    assert texts[0] != "" && texts[0][0] == '(';
    JoinStarts(texts);
  }

  lemma JoinStarts(texts: seq<string>)
    requires texts != [] && texts[0] != ""
    ensures RoomCodec.Join(texts, ',') != "" && RoomCodec.Join(texts, ',')[0] == texts[0][0]
  {
  }

  lemma RowStarts(b: nat)
    ensures RowText(b) != "" && RowText(b)[0] == '('
  {
    var t := Piece("(", b + 1) + Piece("::uuid,", b + 2) + Piece(",", b + 3);
    assert t[0] == '(';
    var u := t + Piece(",", b + 4) + Piece(",", b + 5) + Piece(",COALESCE(NULLIF(", b + 6);
    assert u[0] == t[0];
    assert (u + Piece(",''),'sent'),", b + 7) + Piece(",", b + 8) + Piece(",", b + 9) + ")")[0] == u[0];
  }

  // ---------- The columns that the statement names ----------

  function Before(s: string, sep: char): string {
    if s == "" || s[0] == sep then "" else [s[0]] + Before(s[1..], sep)
  }

  function Past(s: string, sep: char): string {
    if s == "" then "" else if s[0] == sep then s[1..] else Past(s[1..], sep)
  }

  function WithoutSpace(name: string): string {
    if name != "" && name[0] == ' ' then name[1..] else name
  }

  function EachWithoutSpace(names: seq<string>): (r: seq<string>)
    ensures |r| == |names|
    ensures forall i {:trigger r[i]} :: 0 <= i < |names| ==> r[i] == WithoutSpace(names[i])
  {
    seq(|names|, i requires 0 <= i < |names| => WithoutSpace(names[i]))
  }

  /** The names between the first pair of parentheses of a statement. */
  function ColumnNames(statement: string): seq<string> {
    EachWithoutSpace(RoomCodec.Split(Before(Past(statement, '('), ')'), ','))
  }

  lemma {:induction false} BeforeExact(a: string, sep: char, b: string)
    requires sep !in a
    ensures Before(a + [sep] + b, sep) == a && Past(a + [sep] + b, sep) == b
    decreases |a|
  {
    var s := a + [sep] + b;
    if a == "" {
      assert s[0] == sep && s[1..] == b;
    } else {
      assert s[0] == a[0] && s[1..] == a[1..] + [sep] + b;
      BeforeExact(a[1..], sep, b);
      assert [a[0]] + a[1..] == a;
    }
  }

  lemma {:induction false} NotInJoin(c: char, parts: seq<string>, sep: char)
    requires c != sep && forall i :: 0 <= i < |parts| ==> c !in parts[i]
    ensures c !in RoomCodec.Join(parts, sep)
    decreases |parts|
  {
    if |parts| > 1 {
      NotInJoin(c, parts[1..], sep);
      assert c !in [sep];
    }
  }

  lemma {:induction false} SplitJoin(parts: seq<string>, sep: char)
    requires parts != [] && forall i :: 0 <= i < |parts| ==> sep !in parts[i]
    ensures RoomCodec.Split(RoomCodec.Join(parts, sep), sep) == parts
    decreases |parts|
  {
    SplitPlain(parts[0], sep);
    if |parts| > 1 {
      SplitJoin(parts[1..], sep);
      SplitConcat(parts[0], RoomCodec.Join(parts[1..], sep), sep);
      assert [parts[0]] + parts[1..] == parts;
    }
  }

  /** A column name: lower-case letters and underscores. */
  predicate PlainName(name: string) {
    name != "" && forall i :: 0 <= i < |name| ==> name[i] == '_' || 'a' <= name[i] <= 'z'
  }

  lemma PlainNames()
    ensures forall i :: 0 <= i < |NAMES| ==> PlainName(NAMES[i])
  {
    assert PlainName("sender_id") && PlainName("content") && PlainName("conversation_id");
    assert PlainName("attachment") && PlainName("reply_to_id") && PlainName("status");
    assert PlainName("forward_from_id") && PlainName("created_at") && PlainName("updated_at");
  }

  lemma Regroup(a: string, b: string, c: string, d: string, e: string)
    ensures a + b + c + d + e == a + b + (c + d + e)
  {
  }

  lemma ListInStatement(list: seq<string>, rest: string)
    requires list != [] && forall i :: 0 <= i < |list| ==> ')' !in list[i] && ',' !in list[i]
    ensures ColumnNames(Insertion(list, rest)) == EachWithoutSpace(list)
  {
    var into, text := INTO, RoomCodec.Join(list, ',');
    assert '(' !in into;
    NotInJoin(')', list, ',');
    Regroup(into, "(", text, ")", rest);
    BeforeExact(into, '(', text + [')'] + rest);
    BeforeExact(text, ')', rest);
    SplitJoin(list, ',');
  }

  lemma NamesInStatement(names: seq<string>, rest: string)
    requires names != [] && forall i :: 0 <= i < |names| ==> PlainName(names[i])
    ensures ColumnNames(Insertion(names, rest)) == names
  {
    ListInStatement(names, rest);
    assert EachWithoutSpace(names) == names;
  }

  lemma SpacedNamesInStatement(names: seq<string>, rest: string)
    requires names != [] && forall i :: 0 <= i < |names| ==> PlainName(names[i])
    ensures ColumnNames(Insertion(Spaced(names), rest)) == names
  {
    ListInStatement(Spaced(names), rest);
    assert EachWithoutSpace(Spaced(names)) == names;
  }

  /** Whatever rows follow, the columns named in the text are these nine, in this order. */
  lemma StatementNames(texts: seq<string>)
    ensures ColumnNames(Statement(texts)) == NAMES
  {
    PlainNames();
    NamesInStatement(NAMES, VALUES + RoomCodec.Join(texts, ',') + RETURNING);
  }

  // The statement for a single message has a space after each comma of its list (and line breaks, here
  // spaces, between its clauses).

  function Spaced(names: seq<string>): (r: seq<string>)
    ensures |r| == |names|
    ensures forall i {:trigger r[i]} :: 0 <= i < |names| ==> r[i] == if i == 0 then names[i] else " " + names[i]
  {
    seq(|names|, i requires 0 <= i < |names| => if i == 0 then names[i] else " " + names[i])
  }

  const SINGLE_VALUES := " VALUES ($1::uuid, $2, $3, $4, $5, COALESCE(NULLIF($6, ''), 'sent'), $7, $8, $9) RETURNING id, created_at"

  function SingleStatement(): string {
    Insertion(Spaced(NAMES), SINGLE_VALUES)
  }

  lemma SingleStatementNames()
    ensures ColumnNames(SingleStatement()) == NAMES
  {
    PlainNames();
    SpacedNamesInStatement(NAMES, SINGLE_VALUES);
  }

  /** The row that assigns the k-th value to the k-th name. */
  function ByName(names: seq<string>, values: seq<Arg>): map<string, Arg>
    requires |names| == |values|
  {
    if names == [] then map[]
    else ByName(names[..|names| - 1], values[..|names| - 1])[names[|names| - 1] := values[|names| - 1]]
  }

  lemma {:induction false} ByNameExact(names: seq<string>, values: seq<Arg>)
    requires |names| == |values| && forall i, j :: 0 <= i < j < |names| ==> names[i] != names[j]
    ensures forall k :: 0 <= k < |names| ==> names[k] in ByName(names, values) && ByName(names, values)[names[k]] == values[k]
    ensures forall name :: name in ByName(names, values) ==> name in names
    decreases |names|
  {
    if names != [] {
      ByNameExact(names[..|names| - 1], values[..|names| - 1]);
    }
  }

  /** What belongs in the column of that name, if the insert names it. */
  function FieldNamed(m: Message, name: string): Option<Arg> {
    if name == "sender_id" then Some(UuidArg(m.sender))
    else if name == "content" then Some(TextArg(m.content))
    else if name == "conversation_id" then Some(IntArg(m.conversation))
    else if name == "attachment" then Some(if m.attachment == "" then NullArg else TextArg(m.attachment))
    else if name == "reply_to_id" then Some(if m.replyToId.Some? then IntArg(m.replyToId.value) else NullArg)
    else if name == "status" then Some(if m.status == "" then TextArg("sent") else TextArg(m.status))
    else if name == "forward_from_id" then Some(if m.forwardFromId.Some? then IntArg(m.forwardFromId.value) else NullArg)
    else if name == "created_at" then Some(TimeArg(m.createdAt))
    else if name == "updated_at" then Some(TimeArg(m.updatedAt))
    else None
  }

  /** The row has exactly the columns for which the message has a field, each with that field. */
  ghost predicate Stores(columns: map<string, Arg>, m: Message) {
    forall name :: if name in columns then FieldNamed(m, name) == Some(columns[name]) else FieldNamed(m, name).None?
  }

  lemma NamesDiffer()
    ensures forall i, j :: 0 <= i < j < |NAMES| ==> NAMES[i] != NAMES[j]
  {
    assert NAMES[2][0] == 'c' && NAMES[6][0] == 'f';
    assert NAMES[3][0] == 'a' && NAMES[7][0] == 'c' && NAMES[8][0] == 'u';
  }

  lemma FieldAt(m: Message, k: nat)
    requires k < FIELDS
    ensures FieldNamed(m, NAMES[k]) == Some(Column(m, k))
  {
  }

  lemma OnlyNames(m: Message, name: string)
    ensures FieldNamed(m, name).Some? ==> name in NAMES
  {
    if name == "sender_id" { assert name == NAMES[0]; }
    else if name == "content" { assert name == NAMES[1]; }
    else if name == "conversation_id" { assert name == NAMES[2]; }
    else if name == "attachment" { assert name == NAMES[3]; }
    else if name == "reply_to_id" { assert name == NAMES[4]; }
    else if name == "status" { assert name == NAMES[5]; }
    else if name == "forward_from_id" { assert name == NAMES[6]; }
    else if name == "created_at" { assert name == NAMES[7]; }
    else if name == "updated_at" { assert name == NAMES[8]; }
  }

  /** Under the names of the statement, the values of a row are the fields of its message. */
  lemma RowByName(row: seq<Arg>, m: Message)
    requires IsRowOf(row, m)
    ensures Stores(ByName(NAMES, row), m)
  {
    NamesDiffer();
    ByNameExact(NAMES, row);
    forall k | 0 <= k < FIELDS ensures FieldNamed(m, NAMES[k]) == Some(row[k]) {
      FieldAt(m, k);
    }
    forall name | FieldNamed(m, name).Some? ensures name in NAMES {
      OnlyNames(m, name);
    }
  }

  lemma SingleRowByName(row: seq<Arg>, m: Message)
    requires IsRowOf(row, m)
    ensures |ColumnNames(SingleStatement())| == |row| && Stores(ByName(ColumnNames(SingleStatement()), row), m)
  {
    SingleStatementNames();
    RowByName(row, m);
  }

  // ---------- What the database does with it ----------

  /** COALESCE(NULLIF(x, ''), 'sent'), which stands in column 5 only. */
  function Evaluate(x: Arg, k: nat): Arg {
    if k == 5 && x == TextArg("") then TextArg("sent") else x
  }

  /** Every parameter number has its argument. */
  ghost predicate Bound(ns: seq<int>, args: seq<Arg>) {
    forall k :: 0 <= k < |ns| ==> 1 <= ns[k] <= |args|
  }

  /** The row that the text of a message denotes under the bound arguments. */
  function RowValue(ns: seq<int>, args: seq<Arg>): (row: seq<Arg>)
    requires forall k :: 0 <= k < |ns| ==> 1 <= ns[k] <= |args|
    ensures |row| == |ns|
    ensures forall k {:trigger row[k]} :: 0 <= k < |ns| ==> row[k] == Evaluate(args[ns[k] - 1], k)
  {
    seq(|ns|, k requires 0 <= k < |ns| => Evaluate(args[ns[k] - 1], k))
  }

  // ---------- Building the statement ----------

  /** Nine arguments per message, in order. */
  ghost predicate ArgsMatch(args: seq<Arg>, ms: seq<Message>) {
    && |args| == FIELDS * |ms|
    && forall i :: 0 <= i < |ms| ==> IsRowOf(args[FIELDS * i..FIELDS * i + FIELDS], ms[i])
  }

  /** The statement as Build leaves it. */
  ghost predicate Aligned(ms: seq<Message>, texts: seq<string>, args: seq<Arg>) {
    |texts| == |ms| && RowTexts(texts, 0) && ArgsMatch(args, ms)
  }

  /** One more message: its row of parameter numbers and its nine arguments. */
  lemma AlignedAppend(ms: seq<Message>, texts: seq<string>, args: seq<Arg>, m: Message, row: seq<Arg>)
    requires Aligned(ms, texts, args) && IsRowOf(row, m)
    ensures Aligned(ms + [m], texts + [RowText(FIELDS * |ms|)], args + row)
  {
    var args', ms' := args + row, ms + [m];
    forall i | 0 <= i < |ms'| ensures IsRowOf(args'[FIELDS * i..FIELDS * i + FIELDS], ms'[i]) {
      if i < |ms| {
        assert args'[FIELDS * i..FIELDS * i + FIELDS] == args[FIELDS * i..FIELDS * i + FIELDS];
      } else {
        assert args'[FIELDS * i..FIELDS * i + FIELDS] == row;
      }
    }
  }

  /** For every batch size the text of the i-th row, under the bound arguments, denotes exactly the row
      of the i-th message, each column from its own field. */
  lemma EachRowIsItsMessage(ms: seq<Message>, texts: seq<string>, args: seq<Arg>, i: nat)
    requires Aligned(ms, texts, args) && i < |ms|
    ensures Bound(Dollars(texts[i]), args) && IsRowOf(RowValue(Dollars(texts[i]), args), ms[i])
  {
    var b := FIELDS * i;
    assert texts[i] == RowText(FIELDS * (0 + i));
    RowTextNumbers(b);
    assert IsRowOf(args[b..b + FIELDS], ms[i]);
    OwnArguments(Dollars(texts[i]), b, args, ms[i]);
  }

  /** ... under the names that the statement lists. */
  lemma EachRowByName(ms: seq<Message>, texts: seq<string>, args: seq<Arg>, i: nat)
    requires Aligned(ms, texts, args) && i < |ms|
    ensures Bound(Dollars(texts[i]), args)
    ensures var names, row := ColumnNames(Statement(texts)), RowValue(Dollars(texts[i]), args);
      |names| == |row| && Stores(ByName(names, row), ms[i])
  {
    EachRowIsItsMessage(ms, texts, args, i);
    StatementNames(texts);
    RowByName(RowValue(Dollars(texts[i]), args), ms[i]);
  }

  lemma OwnArguments(ns: seq<int>, b: nat, args: seq<Arg>, m: Message)
    requires ns == Numbers(b) && b + FIELDS <= |args| && IsRowOf(args[b..b + FIELDS], m)
    ensures Bound(ns, args) && IsRowOf(RowValue(ns, args), m)
  {
    forall k | 0 <= k < FIELDS ensures ns[k] == b + k + 1 && args[ns[k] - 1] == Column(m, k) {
      assert args[b..b + FIELDS][k] == Column(m, k);
    }
  }

  /** A batch that the writer hands to the repository, in any run, binds 9 to 4500 parameters. */
  lemma WriterBatchFits(es: seq<BatchProtocol.Event>, now: Time, texts: seq<string>, args: seq<Arg>)
    requires BatchProtocol.ValidRun(BatchProtocol.START, es) && BatchProtocol.After(BatchProtocol.START, es).phase.Saving?
    requires var buf := BatchProtocol.After(BatchProtocol.START, es).buf;
      Aligned(seq(|buf|, i requires 0 <= i < |buf| => Filled(buf[i].msg, now)), texts, args)
    ensures |args| == FIELDS * |BatchProtocol.After(BatchProtocol.START, es).buf| && FIELDS <= |args| <= 4500
  {
    BatchProtocol.BatchBound(es);
  }

  // ---------- The repository ----------

  datatype TableRow = TableRow(id: int, columns: map<string, Arg>)

  ghost predicate RowFor(row: TableRow, m: Message, id: int) {
    row.id == id && Stores(row.columns, m)
  }

  /** The rows appended for the messages, under consecutive numbers. */
  ghost predicate RowsFor(rows: seq<TableRow>, ms: seq<Message>, first: int) {
    |rows| == |ms| && forall i :: 0 <= i < |ms| ==> RowFor(rows[i], ms[i], first + i)
  }

  ghost predicate TimesSet(was: Message, m: Message, now: Time) {
    && m.id == was.id && m.sender == was.sender && m.conversation == was.conversation
    && m.content == was.content && m.attachment == was.attachment && m.status == was.status
    && m.receivedAt == was.receivedAt && m.replyToId == was.replyToId && m.forwardFromId == was.forwardFromId
    && m.replyTo == was.replyTo && m.seenBy == was.seenBy
    && (was.createdAt == ZERO_TIME ==> m.createdAt == now) && (was.createdAt != ZERO_TIME ==> m.createdAt == was.createdAt)
    && (was.updatedAt == ZERO_TIME ==> m.updatedAt == now) && (was.updatedAt != ZERO_TIME ==> m.updatedAt == was.updatedAt)
  }

  /** A save sets the times that its caller left open to the time of the call, and nothing else. */
  lemma FilledExact(m: Message, now: Time)
    ensures TimesSet(m, Filled(m, now), now)
  {
  }

  ghost predicate HandedBack(m: Message, r: Message, id: int, size: nat) {
    && r.id == id
    && r.sender == m.sender && r.conversation == m.conversation
    && r.content == m.content && r.attachment == m.attachment
    && r.replyToId == m.replyToId && r.forwardFromId == m.forwardFromId
    && r.replyTo == m.replyTo && r.seenBy == m.seenBy
    && r.createdAt == m.createdAt && r.updatedAt == m.updatedAt
    && r.receivedAt == (if size == 1 then None else m.receivedAt)
    && r.status == (if size == 1 && m.status == "" then "sent" else m.status)
  }

  /** What SaveMessage hands back for a message with its times filled in. */
  function SingleResult(m: Message, id: int): Message {
    m.(id := id, receivedAt := None, status := StatusOf(m))
  }

  /** What a batch of two and more hands back: status and received time are the caller's own. */
  function BatchResult(m: Message, id: int): Message {
    m.(id := id)
  }

  function ResultFor(m: Message, id: int, size: nat): Message {
    if size == 1 then SingleResult(m, id) else BatchResult(m, id)
  }

  /** The caller gets its own fields back under the new id; alone in its batch, with the status that
      was stored and no received time. */
  lemma ResultExact(m: Message, id: int, size: nat)
    ensures HandedBack(m, ResultFor(m, id, size), id, size)
  {
  }

  /** The answer to a message does not depend on the size of its batch exactly if the caller gave it a
      status and no received time. */
  lemma SizeMattersIff(m: Message, id: int)
    ensures (forall size :: size >= 1 ==> ResultFor(m, id, size) == SingleResult(m, id)) <==>
      m.status != "" && m.receivedAt.None?
  {
    assert ResultFor(m, id, 2) == BatchResult(m, id);
    assert BatchResult(m, id).status == m.status && BatchResult(m, id).receivedAt == m.receivedAt;
  }

  class MessageTable {
    var rows: seq<TableRow>
    var nextId: int

    constructor ()
      ensures rows == [] && nextId == 1
    {
      rows, nextId := [], 1;
    }

    method SaveMessage(msg: StoredMessage, now: Time) returns (saved: Message)
      modifies this, msg
      ensures msg.v == Filled(old(msg.v), now)
      ensures |rows| == |old(rows)| + 1 && rows[..|old(rows)|] == old(rows) && nextId == old(nextId) + 1
      ensures RowsFor(rows[|old(rows)|..], [msg.v], old(nextId))
      ensures saved == SingleResult(msg.v, old(nextId))
    {
      StampTimes(msg, now);
      var row := ArgsOf(msg.v);
      saved := msg.v.(id := nextId);
      saved := saved.(receivedAt := None);
      saved := saved.(status := StatusOf(msg.v));
      SingleRowByName(row, msg.v);
      rows := rows + [TableRow(nextId, ByName(ColumnNames(SingleStatement()), row))];
      nextId := nextId + 1;
    }

    /** No message, one message and more take three different ways; whichever is taken, the table gets
        one row per message, in order and under consecutive numbers. */
    method BulkSaveMessages(msgs: seq<StoredMessage>, now: Time) returns (results: seq<Message>)
      modifies this, msgs
      ensures forall i :: 0 <= i < |msgs| ==> msgs[i].v == Filled(old(msgs[i].v), now)
      ensures |rows| == |old(rows)| + |msgs| && rows[..|old(rows)|] == old(rows) && nextId == old(nextId) + |msgs|
      ensures RowsFor(rows[|old(rows)|..], Values(msgs), old(nextId))
      ensures |results| == |msgs|
      ensures forall i :: 0 <= i < |msgs| ==> results[i] == ResultFor(msgs[i].v, old(nextId) + i, |msgs|)
    {
      if |msgs| == 0 {
        return [];
      }
      if |msgs| == 1 {
        var saved := SaveMessage(msgs[0], now);
        assert Values(msgs) == [msgs[0].v];
        return [saved];
      }
      results := SaveTogether(msgs, now);
    }

    method SaveTogether(msgs: seq<StoredMessage>, now: Time) returns (results: seq<Message>)
      requires |msgs| > 1
      modifies this, msgs
      ensures forall i :: 0 <= i < |msgs| ==> msgs[i].v == Filled(old(msgs[i].v), now)
      ensures |rows| == |old(rows)| + |msgs| && rows[..|old(rows)|] == old(rows) && nextId == old(nextId) + |msgs|
      ensures RowsFor(rows[|old(rows)|..], Values(msgs), old(nextId))
      ensures |results| == |msgs|
      ensures forall i :: 0 <= i < |msgs| ==> results[i] == BatchResult(msgs[i].v, old(nextId) + i)
    {
      var texts, args := Build(msgs, now);
      var ids := Insert(texts, args, Values(msgs));
      results := [];
      for i := 0 to |ids|
        modifies {}
        invariant |results| == i && forall k :: 0 <= k < i ==> results[k] == BatchResult(msgs[k].v, ids[k])
      {
        results := results + [msgs[i].v.(id := ids[i])];
      }
    }

    /** The database runs the statement: RETURNING lists the new ids in the order of the rows. */
    method Insert(texts: seq<string>, args: seq<Arg>, ghost ms: seq<Message>) returns (ids: seq<int>)
      requires Aligned(ms, texts, args)
      modifies this
      ensures |rows| == |old(rows)| + |ms| && rows[..|old(rows)|] == old(rows) && nextId == old(nextId) + |ms|
      ensures RowsFor(rows[|old(rows)|..], ms, old(nextId))
      ensures |ids| == |ms| && forall i :: 0 <= i < |ms| ==> ids[i] == old(nextId) + i
    {
      var added := Evaluated(texts, args, nextId, ms);
      var first := nextId;
      ids := seq(|texts|, i requires 0 <= i < |texts| => first + i);
      rows, nextId := rows + added, nextId + |texts|;
      assert rows[|old(rows)|..] == added;
    }
  }

  /** Assigned to these names, the values of a message are stored each under its own name. */
  ghost predicate Fits(names: seq<string>) {
    forall row, m :: IsRowOf(row, m) && |row| == |names| ==> Stores(ByName(names, row), m)
  }

  /** The column list as the database reads it off the statement. */
  method StatementColumns(texts: seq<string>) returns (names: seq<string>)
    ensures |names| == FIELDS && Fits(names)
  {
    names := ColumnNames(Statement(texts));
    StatementNames(texts);
    forall row, m | IsRowOf(row, m) ensures Stores(ByName(names, row), m) {
      RowByName(row, m);
    }
  }

  /** The rows that the database makes of the row texts. */
  method Evaluated(texts: seq<string>, args: seq<Arg>, first: int, ghost ms: seq<Message>) returns (added: seq<TableRow>)
    requires Aligned(ms, texts, args)
    ensures RowsFor(added, ms, first)
  {
    var names := StatementColumns(texts);
    added := [];
    for i := 0 to |texts|
      invariant |added| == i && forall k :: 0 <= k < i ==> RowFor(added[k], ms[k], first + k)
    {
      EachRowIsItsMessage(ms, texts, args, i);
      var row := EvaluatedRow(names, Dollars(texts[i]), args, first + i, ms[i]);
      added := added + [row];
    }
  }

  method EvaluatedRow(names: seq<string>, ns: seq<int>, args: seq<Arg>, id: int, ghost m: Message) returns (row: TableRow)
    requires |names| == FIELDS && Fits(names) && Bound(ns, args) && IsRowOf(RowValue(ns, args), m)
    ensures RowFor(row, m, id)
  {
    row := TableRow(id, ByName(names, RowValue(ns, args)));
  }

  /** The loop over the batch: also stamps the caller's messages where their times are missing
      (once, should the same message occur twice). */
  method Build(msgs: seq<StoredMessage>, now: Time) returns (texts: seq<string>, args: seq<Arg>)
    modifies msgs
    ensures forall i :: 0 <= i < |msgs| ==> msgs[i].v == Filled(old(msgs[i].v), now)
    ensures Aligned(Values(msgs), texts, args)
  {
    ghost var was, ms := Values(msgs), [];
    texts, args := [], [];
    for i := 0 to |msgs|
      invariant |ms| == i && Aligned(ms, texts, args)
      invariant forall j :: 0 <= j < i ==> ms[j] == Filled(was[j], now)
      invariant forall m :: m in msgs[..i] ==> m.v == Filled(old(m.v), now)
      invariant forall m :: m in msgs ==> m.v == Filled(old(m.v), now) || m.v == old(m.v)
    {
      texts, args := AddRow(msgs[i], now, texts, args, ms);
      ms := ms + [msgs[i].v];
      assert msgs[..i + 1] == msgs[..i] + [msgs[i]];
    }
    assert msgs[..|msgs|] == msgs;
    assert ms == Values(msgs);
  }

  /** The body of the loop for one message. */
  method AddRow(msg: StoredMessage, now: Time, texts: seq<string>, args: seq<Arg>, ghost ms: seq<Message>)
    returns (texts': seq<string>, args': seq<Arg>)
    requires Aligned(ms, texts, args)
    modifies msg
    ensures msg.v == Filled(old(msg.v), now)
    ensures Aligned(ms + [msg.v], texts', args')
  {
    StampTimes(msg, now);
    var row := ArgsOf(msg.v);
    AlignedAppend(ms, texts, args, msg.v, row);
    texts' := texts + [RowText(|texts| * FIELDS)];
    args' := args + row;
  }

  method ArgsOf(m: Message) returns (row: seq<Arg>)
    ensures IsRowOf(row, m)
  {
    var status := m.status;
    if status == "" {
      status := "sent";
    }
    var replyToId, forwardFromId := NullArg, NullArg;
    if m.replyToId.Some? {
      replyToId := IntArg(m.replyToId.value);
    }
    if m.forwardFromId.Some? {
      forwardFromId := IntArg(m.forwardFromId.value);
    }
    row := [UuidArg(m.sender), TextArg(m.content), IntArg(m.conversation), TextOrNull(m.attachment),
            replyToId, TextArg(status), forwardFromId, TimeArg(m.createdAt), TimeArg(m.updatedAt)];
  }

  method StampTimes(msg: StoredMessage, now: Time)
    modifies msg
    ensures msg.v == Filled(old(msg.v), now)
  {
    if msg.v.createdAt == ZERO_TIME {
      msg.v := msg.v.(createdAt := now);
    }
    if msg.v.updatedAt == ZERO_TIME {
      msg.v := msg.v.(updatedAt := now);
    }
  }

  // ---------- Reading the seen-by rows back ----------

  datatype SeenRow = SeenRow(messageId: int, entry: SeenEntry)

  function EntriesFor(rows: seq<SeenRow>, id: int): seq<SeenEntry> {
    if rows == [] then []
    else EntriesFor(rows[..|rows| - 1], id)
         + (if rows[|rows| - 1].messageId == id then [rows[|rows| - 1].entry] else [])
  }

  /** The rows of one message, by position. */
  function RowsOf(rows: seq<SeenRow>, id: int): seq<nat> {
    if rows == [] then []
    else RowsOf(rows[..|rows| - 1], id) + (if rows[|rows| - 1].messageId == id then [|rows| - 1] else [])
  }

  /** The entries of a message are those of exactly its own rows, in the order read. */
  lemma {:induction false} EntriesExact(rows: seq<SeenRow>, id: int)
    ensures var at := RowsOf(rows, id);
      && (forall i, j :: 0 <= i < j < |at| ==> at[i] < at[j])
      && (forall k :: k in at <==> 0 <= k < |rows| && rows[k].messageId == id)
      && |EntriesFor(rows, id)| == |at|
      && (forall i :: 0 <= i < |at| ==> at[i] < |rows| && EntriesFor(rows, id)[i] == rows[at[i]].entry)
    decreases |rows|
  {
    if rows != [] {
      EntriesExact(rows[..|rows| - 1], id);
    }
  }

  function EntriesAt(out: map<int, seq<SeenEntry>>, id: int): seq<SeenEntry> {
    if id in out then out[id] else []
  }

  /** One pass over the rows gives each message its own entries, in the order read. */
  method GroupSeenBy(rows: seq<SeenRow>) returns (out: map<int, seq<SeenEntry>>)
    ensures forall id :: EntriesAt(out, id) == EntriesFor(rows, id)
  {
    out := map[];
    for i := 0 to |rows|
      invariant forall id :: EntriesAt(out, id) == EntriesFor(rows[..i], id)
    {
      ghost var before := out;
      var mid := rows[i].messageId;
      out := out[mid := EntriesAt(out, mid) + [rows[i].entry]];
      forall id ensures EntriesAt(out, id) == EntriesFor(rows[..i + 1], id) {
        assert rows[..i + 1][..i] == rows[..i];
        assert EntriesAt(before, id) == EntriesFor(rows[..i], id);
      }
    }
    assert rows[..|rows|] == rows;
  }
}
