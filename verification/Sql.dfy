// The DDL text of the PostgreSQL reconciler and how the server reads it back.
module Sql {
  import opened Common

  datatype DatabaseSpec = DatabaseSpec(name: string, owner: Option<string>, encoding: Option<string>)

  datatype DatabaseChange = Create(db: DatabaseSpec) | Drop(name: string)

  /** `[A-Za-z0-9_-]+`, the only identifiers the reconciler quotes. */
  predicate ValidIdentifier(name: string) {
    name != "" && forall i :: 0 <= i < |name| ==>
      'a' <= name[i] <= 'z' || 'A' <= name[i] <= 'Z' || '0' <= name[i] <= '9'
      || name[i] == '_' || name[i] == '-'
  }

  predicate ValidSpec(db: DatabaseSpec) {
    ValidIdentifier(db.name) && (db.owner.Some? ==> ValidIdentifier(db.owner.value))
  }

  const CREATE := "CREATE DATABASE \""
  const OWNER := " OWNER \""
  const ENCODING := " ENCODING '"
  const DROP := "DROP DATABASE \""

  /** `replace` of one quote character by two. */
  function Doubled(x: string, q: char): string {
    if x == "" then ""
    else (if x[0] == q then [q, q] else [x[0]]) + Doubled(x[1..], q)
  }

  function IdentifierClause(keyword: string, x: Option<string>): string {
    if x.Some? then keyword + (x.value + "\"") else ""
  }

  function OwnerClause(owner: Option<string>): string {
    IdentifierClause(OWNER, owner)
  }

  function EncodingClause(enc: Option<string>): string {
    if enc.Some? then ENCODING + (Doubled(enc.value, '\'') + "'") else ""
  }

  /** The statement `apply` sends for one change. */
  function Text(c: DatabaseChange): string {
    match c
    case Create(db) => CREATE + (db.name + ("\"" + (OwnerClause(db.owner) + EncodingClause(db.encoding))))
    case Drop(name) => DROP + (name + "\"")
  }

  /** The texts in full. */
  lemma StatementText(db: DatabaseSpec, name: string)
    ensures Text(Create(db)) ==
      var owner := if db.owner.Some? then " OWNER \"" + (db.owner.value + "\"") else "";
      var encoding := if db.encoding.Some? then " ENCODING '" + (Doubled(db.encoding.value, '\'') + "'") else "";
      "CREATE DATABASE \"" + (db.name + ("\"" + (owner + encoding)))
    ensures Text(Drop(name)) == "DROP DATABASE \"" + (name + "\"")
  {
  }

  /** Exactly ASCII letters and digits, underscore and hyphen pass, and never
      nothing: codes 65 to 90, 97 to 122, 48 to 57, 95 and 45. */
  lemma IdentifierAlphabet(name: string)
    ensures ValidIdentifier(name) <==>
      |name| > 0 && forall i :: 0 <= i < |name| ==>
        var c := name[i] as int; 65 <= c <= 90 || 97 <= c <= 122 || 48 <= c <= 57 || c == 95 || c == 45
  {
  }

  // ---- the server's reading -------------------------------------------------

  /** Longest identifier the server keeps: NAMEDATALEN - 1 bytes (section 4.1.1
      of the PostgreSQL manual). Names are byte strings here. */
  const MAX_IDENTIFIER: nat := 63

  /** A longer identifier is cut without an error. */
  function Cut(name: string): (r: string)
    ensures |r| <= MAX_IDENTIFIER
    ensures r == name <==> |name| <= MAX_IDENTIFIER
  {
    Take(name, MAX_IDENTIFIER)
  }

  /** 63 bytes are kept, from the front. */
  lemma SixtyThreeBytes(name: string)
    ensures |name| <= 63 ==> Cut(name) == name
    ensures |name| > 63 ==> |Cut(name)| == 63 && name == Cut(name) + name[63..]
  {
  }

  function CutOwner(owner: Option<string>): Option<string> {
    if owner.Some? then Some(Cut(owner.value)) else None
  }

  /** The change that the server understands when asked for `c`. */
  function AsRead(c: DatabaseChange): DatabaseChange {
    match c
    case Create(db) => Create(DatabaseSpec(Cut(db.name), CutOwner(db.owner), db.encoding))
    case Drop(name) => Drop(Cut(name))
  }

  /** Every identifier of the change is short enough to be kept whole. */
  predicate Fits(c: DatabaseChange) {
    match c
    case Create(db) => |db.name| <= MAX_IDENTIFIER && (db.owner.Some? ==> |db.owner.value| <= MAX_IDENTIFIER)
    case Drop(name) => |name| <= MAX_IDENTIFIER
  }

  /** Section 4.1.1 of the PostgreSQL manual: a quoted token runs to the closing
      quote, a doubled quote inside stands for one. */
  function Quoted(s: string, q: char): Option<(string, string)>
    decreases |s|
  {
    if s == "" then None
    else if s[0] != q then
      (match Quoted(s[1..], q)
       case None => None
       case Some((x, rest)) => Some(([s[0]] + x, rest)))
    else if |s| > 1 && s[1] == q then
      (match Quoted(s[2..], q)
       case None => None
       case Some((x, rest)) => Some(([q] + x, rest)))
    else Some(("", s[1..]))
  }

  /** An optional clause: keyword, quoted token. */
  function Clause(s: string, keyword: string, q: char): Option<(Option<string>, string)> {
    if StartsWith(s, keyword) then
      match Quoted(s[|keyword|..], q)
      case None => None
      case Some((x, rest)) => Some((Some(x), rest))
    else Some((None, s))
  }

  function Parse(s: string): Option<DatabaseChange> {
    if StartsWith(s, CREATE) then
      match Quoted(s[|CREATE|..], '"')
      case None => None
      case Some((name, s1)) =>
        match Clause(s1, OWNER, '"')
        case None => None
        case Some((owner, s2)) =>
          match Clause(s2, ENCODING, '\'')
          case None => None
          case Some((enc, s3)) =>
            if s3 == "" then Some(Create(DatabaseSpec(Cut(name), CutOwner(owner), enc))) else None
    else if StartsWith(s, DROP) then
      match Quoted(s[|DROP|..], '"')
      case None => None
      case Some((name, rest)) => if rest == "" then Some(Drop(Cut(name))) else None
    else None
  }

  // ---- round trip ------------------------------------------------------------

  lemma {:induction false} QuotedDoubled(x: string, q: char, rest: string)
    requires rest == "" || rest[0] != q
    ensures Quoted(Doubled(x, q) + ([q] + rest), q) == Some((x, rest))
  {
    var s := Doubled(x, q) + ([q] + rest);
    if x == "" {
      assert s == [q] + rest && s[1..] == rest;
    } else {
      QuotedDoubled(x[1..], q, rest);
      var t := Doubled(x[1..], q) + ([q] + rest);
      assert x == [x[0]] + x[1..];
      if x[0] == q {
        assert s == [q, q] + t && s[2..] == t;
      } else {
        assert s == [x[0]] + t && s[1..] == t;
      }
    }
  }

  lemma {:induction false} PlainDoubled(x: string, q: char)
    requires q !in x
    ensures Doubled(x, q) == x
  {
    if x != "" { PlainDoubled(x[1..], q); }
  }

  /** A validated identifier needs no escaping. */
  lemma QuotedIdentifier(x: string, rest: string)
    requires ValidIdentifier(x) && (rest == "" || rest[0] != '"')
    ensures Quoted(x + ("\"" + rest), '"') == Some((x, rest))
  {
    PlainDoubled(x, '"');
    QuotedDoubled(x, '"', rest);
    assert ['"'] == "\"";
  }

  /** A clause that is present is read to its closing quote. */
  lemma ClauseReadBack(keyword: string, body: string, q: char, x: string, rest: string)
    requires Quoted(body, q) == Some((x, rest))
    ensures Clause(keyword + body, keyword, q) == Some((Some(x), rest))
  {
    var s := keyword + body;
    assert s[..|keyword|] == keyword && s[|keyword|..] == body;
  }

  lemma KeywordsDiffer(rest: string)
    requires rest == "" || StartsWith(rest, ENCODING)
    ensures !StartsWith(rest, OWNER) && (rest == "" || rest[0] != '"')
  {
    assert OWNER[1] == 'O' && ENCODING[1] == 'E' && ENCODING[0] == ' ';
    assert rest != "" ==> rest[0] == ENCODING[0] && rest[1] == ENCODING[1];
  }

  lemma IdentifierReadBack(keyword: string, x: Option<string>, rest: string)
    requires x.Some? ==> ValidIdentifier(x.value)
    requires !StartsWith(rest, keyword) && (rest == "" || rest[0] != '"')
    ensures Clause(IdentifierClause(keyword, x) + rest, keyword, '"') == Some((x, rest))
  {
    if x.Some? {
      var body := x.value + ("\"" + rest);
      QuotedIdentifier(x.value, rest);
      ClauseReadBack(keyword, body, '"', x.value, rest);
      assert IdentifierClause(keyword, x) + rest == keyword + body;
    } else {
      assert IdentifierClause(keyword, x) + rest == rest;
    }
  }

  lemma EncodingReadBack(enc: Option<string>)
    ensures Clause(EncodingClause(enc), ENCODING, '\'') == Some((enc, ""))
  {
    if enc.Some? {
      QuotedDoubled(enc.value, '\'', "");
      assert "'" == ['\''] + "";
      ClauseReadBack(ENCODING, Doubled(enc.value, '\'') + "'", '\'', enc.value, "");
    }
  }

  /** Validated identifiers and doubled apostrophes make the text unambiguous,
      whatever the encoding holds: the server reads the planned change with its
      identifiers cut, so exactly the planned change when they all fit. */
  lemma ServerReadsThePlan(c: DatabaseChange)
    requires match c case Create(db) => ValidSpec(db) case Drop(name) => ValidIdentifier(name)
    ensures Parse(Text(c)) == Some(AsRead(c))
    ensures Parse(Text(c)) == Some(c) <==> Fits(c)
  {
    var s := Text(c);
    match c
    case Create(db) =>
      var tail := OwnerClause(db.owner) + EncodingClause(db.encoding);
      assert s[..|CREATE|] == CREATE && s[|CREATE|..] == db.name + ("\"" + tail);
      TailStart(db);
      QuotedIdentifier(db.name, tail);
      EncodingStart(db.encoding);
      KeywordsDiffer(EncodingClause(db.encoding));
      IdentifierReadBack(OWNER, db.owner, EncodingClause(db.encoding));
      EncodingReadBack(db.encoding);
    case Drop(name) =>
      assert DROP[0] != CREATE[0] && s[0] == DROP[0];
      assert s[..|DROP|] == DROP && s[|DROP|..] == name + ("\"" + "");
      QuotedIdentifier(name, "");
  }

  lemma EncodingStart(enc: Option<string>)
    ensures EncodingClause(enc) == "" || StartsWith(EncodingClause(enc), ENCODING)
  {
  }

  lemma TailStart(db: DatabaseSpec)
    ensures var tail := OwnerClause(db.owner) + EncodingClause(db.encoding); tail == "" || tail[0] != '"'
  {
  }
}
