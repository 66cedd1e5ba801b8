/**
  The partial update of internal/users: a patch is turned into a list of columns
  (users.go), the list into SQL text and arguments (postgres.go). `ReadUpdate`
  reads that text back without knowing how it was built, and the lemmas show
  that executing what it reads does to the table what the patch says.
 */
module SqlPatch {
  import opened Common
  import opened Decimal

  datatype Value = Text(s: string) | Int(i: int) | Flag(b: bool)

  /** The columns a patch can set. */
  datatype Column =
    | Name | Token | Webhook | Expiration | Events | History | ProxyUrl
    | S3Enabled | S3Endpoint | S3Region | S3Bucket | S3AccessKey | S3SecretKey
    | S3PathStyle | S3PublicUrl | MediaDelivery | S3RetentionDays

  function NameOf(c: Column): string {
    match c
    case Name => "name"
    case Token => "token"
    case Webhook => "webhook"
    case Expiration => "expiration"
    case Events => "events"
    case History => "history"
    case ProxyUrl => "proxy_url"
    case S3Enabled => "s3_enabled"
    case S3Endpoint => "s3_endpoint"
    case S3Region => "s3_region"
    case S3Bucket => "s3_bucket"
    case S3AccessKey => "s3_access_key"
    case S3SecretKey => "s3_secret_key"
    case S3PathStyle => "s3_path_style"
    case S3PublicUrl => "s3_public_url"
    case MediaDelivery => "media_delivery"
    case S3RetentionDays => "s3_retention_days"
  }

  datatype Field = Field(column: Column, value: Value)

  /** users.UpdateField: the column by its SQL name. */
  datatype UpdateField = UpdateField(column: string, value: Value)

  datatype ProxyConfig = ProxyConfig(enabled: bool, proxyURL: string)

  /** Zero values mean "leave alone"; the two configs are pointers in the source. */
  datatype UpdateInput = UpdateInput(
    name: string, token: string, webhook: string, expiration: int, events: string, history: int,
    proxyConfig: Option<ProxyConfig>, s3Config: Option<S3Config>)

  // ---------------------------------------------------------------------
  // From patch to columns
  // ---------------------------------------------------------------------

  const COLUMN_COUNT: nat := 17

  /** Column order, as the source lists them. */
  function ColumnAt(k: nat): Column
    requires k < COLUMN_COUNT
  {
    match k
    case 0 => Name
    case 1 => Token
    case 2 => Webhook
    case 3 => Expiration
    case 4 => Events
    case 5 => History
    case 6 => ProxyUrl
    case 7 => S3Enabled
    case 8 => S3Endpoint
    case 9 => S3Region
    case 10 => S3Bucket
    case 11 => S3AccessKey
    case 12 => S3SecretKey
    case 13 => S3PathStyle
    case 14 => S3PublicUrl
    case 15 => MediaDelivery
    case _ => S3RetentionDays
  }

  /** What the patch means for each column, read off the patch directly. */
  function Patch(u: UpdateInput, c: Column): Option<Value> {
    match c
    case Name => if u.name == "" then None else Some(Text(u.name))
    case Token => if u.token == "" then None else Some(Text(u.token))
    case Webhook => if u.webhook == "" then None else Some(Text(u.webhook))
    case Expiration => if u.expiration == 0 then None else Some(Int(u.expiration))
    case Events => if u.events == "" then None else Some(Text(u.events))
    case History => if u.history == 0 then None else Some(Int(u.history))
    case ProxyUrl =>
      (match u.proxyConfig
       case None => None
       case Some(p) => Some(Text(if p.enabled then p.proxyURL else "")))
    case _ =>
      (match u.s3Config
       case None => None
       case Some(s3) => Some(S3Column(s3, c)))
  }

  function S3Column(s3: S3Config, c: Column): Value {
    match c
    case S3Enabled => Flag(s3.enabled)
    case S3Endpoint => Text(s3.endpoint)
    case S3Region => Text(s3.region)
    case S3Bucket => Text(s3.bucket)
    case S3AccessKey => Text(s3.accessKey)
    case S3SecretKey => Text(s3.secretKey)
    case S3PathStyle => Flag(s3.pathStyle)
    case S3PublicUrl => Text(s3.publicURL)
    case MediaDelivery => Text(s3.mediaDelivery)
    case _ => Int(s3.retentionDays)
  }

  /** The patched ones among the first k columns, in order, each with its patch value. */
  function Patched(u: UpdateInput, k: nat): seq<Field>
    requires k <= COLUMN_COUNT
    decreases u, k
  {
    if k == 0 then []
    else
      match Patch(u, ColumnAt(k - 1))
      case None => Patched(u, k - 1)
      case Some(v) => Patched(u, k - 1) + [Field(ColumnAt(k - 1), v)]
  }

  /** The ten fields buildUpdateFields appends for an S3 config. */
  function S3Fields(s3: S3Config): seq<Field> {
    [
      Field(S3Enabled, Flag(s3.enabled)),
      Field(S3Endpoint, Text(s3.endpoint)),
      Field(S3Region, Text(s3.region)),
      Field(S3Bucket, Text(s3.bucket)),
      Field(S3AccessKey, Text(s3.accessKey)),
      Field(S3SecretKey, Text(s3.secretKey)),
      Field(S3PathStyle, Flag(s3.pathStyle)),
      Field(S3PublicUrl, Text(s3.publicURL)),
      Field(MediaDelivery, Text(s3.mediaDelivery)),
      Field(S3RetentionDays, Int(s3.retentionDays))]
  }

  /** buildUpdateFields. */
  method BuildUpdateFields(u: UpdateInput) returns (f: seq<Field>)
    ensures f == Patched(u, COLUMN_COUNT)
  {
    f := [];
    if u.name != "" {
      f := f + [Field(Name, Text(u.name))];
    }
    assert f == Patched(u, 1);
    if u.token != "" {
      f := f + [Field(Token, Text(u.token))];
    }
    assert f == Patched(u, 2);
    if u.webhook != "" {
      f := f + [Field(Webhook, Text(u.webhook))];
    }
    assert f == Patched(u, 3);
    if u.expiration != 0 {
      f := f + [Field(Expiration, Int(u.expiration))];
    }
    assert f == Patched(u, 4);
    if u.events != "" {
      f := f + [Field(Events, Text(u.events))];
    }
    assert f == Patched(u, 5);
    if u.history != 0 {
      f := f + [Field(History, Int(u.history))];
    }
    assert f == Patched(u, 6);
    if u.proxyConfig.Some? {
      var url := "";
      if u.proxyConfig.value.enabled {
        url := u.proxyConfig.value.proxyURL;
      }
      f := f + [Field(ProxyUrl, Text(url))];
    }
    assert f == Patched(u, 7);
    if u.s3Config.Some? {
      f := f + S3Fields(u.s3Config.value);
    }
    S3Block(u);
  }

  /** A patch sets either all S3 columns or none. */
  lemma S3Block(u: UpdateInput)
    ensures Patched(u, COLUMN_COUNT) ==
            match u.s3Config
            case None => Patched(u, 7)
            case Some(s3) => Patched(u, 7) + S3Fields(s3)
  {
    S3Part(u, 10);
    if u.s3Config.Some? {
      assert S3Fields(u.s3Config.value)[..10] == S3Fields(u.s3Config.value);
    }
  }

  lemma PatchedStep(u: UpdateInput, k: nat)
    requires k < COLUMN_COUNT
    ensures Patched(u, k + 1) ==
            match Patch(u, ColumnAt(k))
            case None => Patched(u, k)
            case Some(v) => Patched(u, k) + [Field(ColumnAt(k), v)]
  {
  }

  lemma S3PatchAt(u: UpdateInput, k: nat)
    requires 7 <= k < COLUMN_COUNT
    ensures Patch(u, ColumnAt(k)) ==
            match u.s3Config case None => None case Some(s3) => Some(S3Column(s3, ColumnAt(k)))
  {
  }

  lemma {:induction false} S3Part(u: UpdateInput, k: nat)
    requires k <= 10
    ensures Patched(u, 7 + k) ==
            match u.s3Config
            case None => Patched(u, 7)
            case Some(s3) => Patched(u, 7) + S3Fields(s3)[..k]
    decreases k
  {
    if k > 0 {
      S3Part(u, k - 1);
      PatchedStep(u, 6 + k);
      S3PatchAt(u, 6 + k);
      if u.s3Config.Some? {
        var fs := S3Fields(u.s3Config.value);
        S3FieldAt(u.s3Config.value, k - 1);
        assert fs[..k] == fs[..k - 1] + [fs[k - 1]];
      }
    } else if u.s3Config.Some? {
      assert S3Fields(u.s3Config.value)[..0] == [];
    }
  }

  lemma S3FieldAt(s3: S3Config, k: nat)
    requires k < 10
    ensures S3Fields(s3)[k] == Field(ColumnAt(7 + k), S3Column(s3, ColumnAt(7 + k)))
  {
  }

  lemma RankOf(c: Column) returns (k: nat)
    ensures k < COLUMN_COUNT && ColumnAt(k) == c
  {
    k := match c
      case Name => 0 case Token => 1 case Webhook => 2 case Expiration => 3 case Events => 4 case History => 5
      case ProxyUrl => 6 case S3Enabled => 7 case S3Endpoint => 8 case S3Region => 9 case S3Bucket => 10
      case S3AccessKey => 11 case S3SecretKey => 12 case S3PathStyle => 13 case S3PublicUrl => 14
      case MediaDelivery => 15 case S3RetentionDays => 16;
  }

  lemma ColumnsDistinct(i: nat, j: nat)
    requires i < j < COLUMN_COUNT
    ensures ColumnAt(i) != ColumnAt(j)
  {
  }

  /** Each field is a patched column with its patch value, from among the first k columns. */
  lemma {:induction false} PatchedSound(u: UpdateInput, k: nat, i: nat)
    requires k <= COLUMN_COUNT && i < |Patched(u, k)|
    ensures var f := Patched(u, k)[i];
            Patch(u, f.column) == Some(f.value) && exists j :: 0 <= j < k && ColumnAt(j) == f.column
    decreases k
  {
    if i < |Patched(u, k - 1)| {
      PatchedSound(u, k - 1, i);
    }
  }

  /** Every patched column among the first k is there. */
  lemma {:induction false} PatchedComplete(u: UpdateInput, k: nat, j: nat) returns (i: nat)
    requires j < k <= COLUMN_COUNT && Patch(u, ColumnAt(j)).Some?
    ensures i < |Patched(u, k)| && Patched(u, k)[i].column == ColumnAt(j)
    decreases k
  {
    if j == k - 1 {
      i := |Patched(u, k - 1)|;
    } else {
      i := PatchedComplete(u, k - 1, j);
    }
  }

  lemma {:induction false} PatchedDistinct(u: UpdateInput, k: nat, i: nat, j: nat)
    requires k <= COLUMN_COUNT && i < j < |Patched(u, k)|
    ensures Patched(u, k)[i].column != Patched(u, k)[j].column
    decreases k
  {
    if j < |Patched(u, k - 1)| {
      PatchedDistinct(u, k - 1, i, j);
    } else {
      PatchedSound(u, k - 1, i);
      var m :| 0 <= m < k - 1 && ColumnAt(m) == Patched(u, k - 1)[i].column;
      ColumnsDistinct(m, k - 1);
    }
  }

  ghost predicate ChangesSomething(u: UpdateInput) {
    exists c: Column :: Patch(u, c).Some?
  }

  /** Nothing is listed, and the update refused, exactly when the patch changes no column. */
  lemma NoFieldsIffNoPatch(u: UpdateInput)
    ensures Patched(u, COLUMN_COUNT) == [] <==> !ChangesSomething(u)
  {
    forall c: Column | Patch(u, c).Some?
      ensures Patched(u, COLUMN_COUNT) != []
    {
      var k := RankOf(c);
      var _ := PatchedComplete(u, COLUMN_COUNT, k);
    }
    if Patched(u, COLUMN_COUNT) != [] {
      PatchedSound(u, COLUMN_COUNT, 0);
    }
  }

  // ---------------------------------------------------------------------
  // From columns to text
  // ---------------------------------------------------------------------

  const SET: string := "UPDATE users SET "
  const WHERE: string := " WHERE id = $"
  const EQUALS: string := " = $"

  /** One assignment, spelled out. */
  lemma ItemIs(fields: seq<UpdateField>, i: nat)
    requires i < |fields|
    ensures Item(fields, i) == (if i == 0 then "" else ", ") + fields[i].column + " = $" + Numeral(i + 1)
  {
  }

  /** The i-th assignment with its placeholder, preceded by a comma unless it is the first. */
  function Item(fields: seq<UpdateField>, i: nat): string
    requires i < |fields|
  {
    (if i > 0 then ", " else "") + fields[i].column + EQUALS + Numeral(i + 1)
  }

  function Items(fields: seq<UpdateField>, i: nat): string
    requires i <= |fields|
    decreases |fields| - i
  {
    if i == |fields| then "" else Item(fields, i) + Items(fields, i + 1)
  }

  function UpdateText(fields: seq<UpdateField>): string {
    SET + Items(fields, 0) + WHERE + Numeral(|fields| + 1)
  }

  function UpdateArgs(fields: seq<UpdateField>, id: string): seq<Value> {
    seq(|fields|, i requires 0 <= i < |fields| => fields[i].value) + [Text(id)]
  }

  lemma Rebracket(t: string, a: string, b: string, c: string, d: string, rest: string)
    ensures t + a + b + c + d + rest == t + (a + b + c + d + rest)
  {
    assert a + b + c + d + rest == a + (b + (c + (d + rest)));
    assert t + a + b + c + d + rest == t + (a + (b + (c + (d + rest))));
  }

  /** PostgresRepository.Update, up to handing text and arguments to the driver; it refuses an empty list. */
  method PrintUpdate(fields: seq<UpdateField>, id: string) returns (ok: bool, text: string, args: seq<Value>)
    ensures ok <==> fields != []
    ensures ok ==> text == UpdateText(fields) && args == UpdateArgs(fields, id)
    ensures ok ==> text == "UPDATE users SET " + Items(fields, 0) + " WHERE id = $" + Numeral(|fields| + 1)
    ensures ok ==> |args| == |fields| + 1 && args[|fields|] == Text(id)
    ensures ok ==> forall k :: 0 <= k < |fields| ==> args[k] == fields[k].value
  {
    text, args := "", [];
    if |fields| == 0 {
      return false, text, args;
    }
    text := SET;
    for i := 0 to |fields|
      invariant text + Items(fields, i) == SET + Items(fields, 0)
      invariant |args| == i && forall k :: 0 <= k < i ==> args[k] == fields[k].value
    {
      ghost var before := text;
      var comma := if i > 0 then ", " else "";
      var name := fields[i].column;
      var number := Numeral(i + 1);
      Rebracket(before, comma, name, EQUALS, number, Items(fields, i + 1));
      text := text + comma;
      text := text + name;
      text := text + EQUALS;
      text := text + number;
      args := args + [fields[i].value];
    }
    assert text + "" == text;
    text := text + WHERE;
    text := text + Numeral(|fields| + 1);
    args := args + [Text(id)];
    ok := true;
  }

  // ---------------------------------------------------------------------
  // Reading the text back
  // ---------------------------------------------------------------------

  /** SET column = $param. */
  datatype Assign = Assign(column: string, param: nat)
  datatype Stmt = Stmt(sets: seq<Assign>, where: nat)

  predicate IdentChar(c: char) {
    'a' <= c <= 'z' || '0' <= c <= '9' || c == '_'
  }

  /** The longest prefix of s whose characters satisfy p. */
  function Span(s: string, p: char -> bool): (r: string)
    ensures r <= s && forall i :: 0 <= i < |r| ==> p(r[i])
  {
    if s == "" || !p(s[0]) then "" else [s[0]] + Span(s[1..], p)
  }

  lemma {:induction false} SpanOf(a: string, rest: string, p: char -> bool)
    requires (forall i :: 0 <= i < |a| ==> p(a[i])) && (rest == "" || !p(rest[0]))
    ensures Span(a + rest, p) == a
    decreases |a|
  {
    if a == "" {
      assert a + rest == rest;
    } else {
      assert (a + rest)[1..] == a[1..] + rest;
      SpanOf(a[1..], rest, p);
    }
  }

  /** column = $n, then either a comma and more, or the WHERE clause and nothing after it. */
  function ReadSets(s: string): Option<Stmt>
    decreases |s|
  {
    var column := Span(s, IdentChar);
    var afterColumn := s[|column|..];
    if column == "" || !(EQUALS <= afterColumn) then None
    else
      var number := Span(afterColumn[|EQUALS|..], IsDigit);
      var rest := afterColumn[|EQUALS|..][|number|..];
      if number == "" then None
      else if ", " <= rest then
        match ReadSets(rest[2..])
        case None => None
        case Some(st) => Some(Stmt([Assign(column, ValueOf(number))] + st.sets, st.where))
      else if WHERE <= rest then
        var key := Span(rest[|WHERE|..], IsDigit);
        if key == "" || key != rest[|WHERE|..] then None
        else Some(Stmt([Assign(column, ValueOf(number))], ValueOf(key)))
      else None
  }

  /** What follows the prefix, if the text starts with it. */
  function After(prefix: string, text: string): Option<string> {
    if prefix <= text then Some(text[|prefix|..]) else None
  }

  function ReadUpdate(text: string): Option<Stmt> {
    match After(SET, text)
    case None => None
    case Some(rest) => ReadSets(rest)
  }

  predicate IsIdent(s: string) {
    s != "" && forall i :: 0 <= i < |s| ==> IdentChar(s[i])
  }

  predicate AllIdents(fields: seq<UpdateField>) {
    forall f <- fields :: IsIdent(f.column)
  }

  /** Reading a name off the front, up to a separator that no name can contain. */
  lemma ReadName(name: string, eq: string, more: string)
    requires IsIdent(name) && eq != "" && !IdentChar(eq[0])
    ensures var s := name + (eq + more);
            Span(s, IdentChar) == name && s[|name|..] == eq + more && eq <= eq + more && (eq + more)[|eq|..] == more
  {
    SpanOf(name, eq + more, IdentChar);
  }

  /** Reading a number off the front. */
  lemma ReadNumber(number: string, rest: string)
    requires AllDigits(number) && (rest == "" || !IsDigit(rest[0]))
    ensures Span(number + rest, IsDigit) == number && (number + rest)[|number|..] == rest
  {
    SpanOf(number, rest, IsDigit);
  }

  lemma ToTheRight(a: string, b: string, c: string, d: string)
    ensures a + b + c + d == a + (b + (c + d))
  {
  }

  /** Reading a name and a number separated by eq off the front. */
  lemma ReadOne(name: string, eq: string, number: string, rest: string)
    requires IsIdent(name) && eq != "" && !IdentChar(eq[0])
    requires AllDigits(number) && (rest == "" || !IsDigit(rest[0]))
    ensures var s := name + eq + number + rest;
            && Span(s, IdentChar) == name
            && eq <= s[|name|..]
            && s[|name|..][|eq|..] == number + rest
            && Span(number + rest, IsDigit) == number
            && (number + rest)[|number|..] == rest
  {
    ToTheRight(name, eq, number, rest);
    ReadName(name, eq, number + rest);
    ReadNumber(number, rest);
  }

  /** A comma follows: read on. */
  lemma ReadNext(name: string, n: nat, comma: string, rest: string)
    requires IsIdent(name) && comma == ", " && ReadSets(rest).Some?
    ensures ReadSets(name + EQUALS + Numeral(n) + (comma + rest)) ==
            Some(Stmt([Assign(name, n)] + ReadSets(rest).value.sets, ReadSets(rest).value.where))
  {
    NumeralIsCanonical(n);
    ReadOne(name, EQUALS, Numeral(n), comma + rest);
    assert comma <= comma + rest && (comma + rest)[2..] == rest;
  }

  /** The WHERE clause follows and ends the statement. */
  lemma ReadEnd(name: string, n: nat, where: string, key: string)
    requires IsIdent(name) && where == WHERE && AllDigits(key) && key != ""
    ensures ReadSets(name + EQUALS + Numeral(n) + (where + key)) == Some(Stmt([Assign(name, n)], ValueOf(key)))
  {
    NumeralIsCanonical(n);
    var rest := where + key;
    assert rest[0] == where[0] == ' ';
    ReadOne(name, EQUALS, Numeral(n), rest);
    assert where <= rest && rest[|where|..] == key;
    SpanOf(key, "", IsDigit);
    assert key + "" == key;
  }

  /** The assignments the text stands for. */
  function Sets(fields: seq<UpdateField>, i: nat): seq<Assign>
    requires i <= |fields|
    decreases |fields| - i
  {
    if i == |fields| then [] else [Assign(fields[i].column, i + 1)] + Sets(fields, i + 1)
  }

  /** Items without the leading comma of its first element. */
  function Bare(fields: seq<UpdateField>, i: nat): string
    requires i < |fields|
  {
    fields[i].column + EQUALS + Numeral(i + 1) + Items(fields, i + 1)
  }

  lemma ItemsHasComma(fields: seq<UpdateField>, i: nat)
    requires 0 < i < |fields|
    ensures Items(fields, i) == ", " + Bare(fields, i)
  {
    var name, number, more := fields[i].column, Numeral(i + 1), Items(fields, i + 1);
    Rebracket("", ", ", name, EQUALS, number, more);
    CommaOut(name, number, more);
  }

  lemma CommaOut(name: string, number: string, more: string)
    ensures ", " + name + EQUALS + number + more == ", " + (name + EQUALS + number + more)
  {
    assert ", " + name + EQUALS + number + more == ", " + (name + (EQUALS + (number + more)));
    assert name + EQUALS + number + more == name + (EQUALS + (number + more));
  }

  lemma Regroup(a: string, b: string, c: string, more: string, tail: string)
    ensures a + b + c + more + tail == a + b + c + (more + tail)
  {
  }

  lemma BareNext(fields: seq<UpdateField>, i: nat, tail: string)
    requires i + 1 < |fields|
    ensures Bare(fields, i) + tail ==
            fields[i].column + EQUALS + Numeral(i + 1) + (", " + (Bare(fields, i + 1) + tail))
  {
    ItemsHasComma(fields, i + 1);
    Regroup(fields[i].column, EQUALS, Numeral(i + 1), ", " + Bare(fields, i + 1), tail);
    assert ", " + Bare(fields, i + 1) + tail == ", " + (Bare(fields, i + 1) + tail);
  }

  lemma BareLast(fields: seq<UpdateField>, i: nat, tail: string)
    requires i + 1 == |fields|
    ensures Bare(fields, i) + tail == fields[i].column + EQUALS + Numeral(i + 1) + tail
  {
    Regroup(fields[i].column, EQUALS, Numeral(i + 1), "", tail);
    assert "" + tail == tail;
  }

  lemma {:induction false} ReadItems(fields: seq<UpdateField>, i: nat, key: nat, tail: string)
    requires i < |fields| && AllIdents(fields) && tail == WHERE + Numeral(key)
    ensures ReadSets(Bare(fields, i) + tail) == Some(Stmt(Sets(fields, i), key))
    decreases |fields| - i
  {
    assert IsIdent(fields[i].column);
    if i + 1 == |fields| {
      BareLast(fields, i, tail);
      NumeralIsCanonical(key);
      ReadEnd(fields[i].column, i + 1, WHERE, Numeral(key));
      assert Sets(fields, i) == [Assign(fields[i].column, i + 1)];
    } else {
      BareNext(fields, i, tail);
      ReadItems(fields, i + 1, key, tail);
      ReadNext(fields[i].column, i + 1, ", ", Bare(fields, i + 1) + tail);
    }
  }

  lemma FirstItem(fields: seq<UpdateField>)
    requires fields != []
    ensures Items(fields, 0) == Bare(fields, 0)
  {
    assert "" + fields[0].column == fields[0].column;
  }

  lemma Opening(set0: string, body: string, where: string, key: string)
    ensures After(set0, set0 + body + where + key) == Some(body + (where + key))
  {
    assert set0 + body + where + key == set0 + (body + (where + key));
  }

  lemma TextOpens(fields: seq<UpdateField>)
    requires fields != []
    ensures After(SET, UpdateText(fields)) == Some(Bare(fields, 0) + (WHERE + Numeral(|fields| + 1)))
  {
    FirstItem(fields);
    Opening(SET, Bare(fields, 0), WHERE, Numeral(|fields| + 1));
  }

  /** The text reads back as one assignment per field, in order, and the row key as last parameter. */
  lemma ReadPrinted(fields: seq<UpdateField>)
    requires fields != [] && AllIdents(fields)
    ensures ReadUpdate(UpdateText(fields)) == Some(Stmt(Sets(fields, 0), |fields| + 1))
  {
    ReadItems(fields, 0, |fields| + 1, WHERE + Numeral(|fields| + 1));
    TextOpens(fields);
  }

  // ---------------------------------------------------------------------
  // What the statement does
  // ---------------------------------------------------------------------

  type Row = map<string, Value>
  type Table = map<string, Row>

  predicate Bound(st: Stmt, args: seq<Value>) {
    1 <= st.where <= |args| && forall a <- st.sets :: 1 <= a.param <= |args|
  }

  function Assigned(row: Row, sets: seq<Assign>, args: seq<Value>): Row
    requires forall a <- sets :: 1 <= a.param <= |args|
  {
    if sets == [] then row
    else
      var n := |sets| - 1;
      Assigned(row, sets[..n], args)[sets[n].column := args[sets[n].param - 1]]
  }

  /** UPDATE users SET ... WHERE id = $where. */
  function Execute(st: Stmt, args: seq<Value>, table: Table): Table
    requires Bound(st, args)
  {
    match args[st.where - 1]
    case Text(id) => if id in table then table[id := Assigned(table[id], st.sets, args)] else table
    case _ => table
  }

  /** The k-th assignment names the k-th field and the k-th argument. */
  lemma {:induction false} SetsAt(fields: seq<UpdateField>, i: nat, k: nat)
    requires i <= k < |fields|
    ensures |Sets(fields, i)| == |fields| - i && Sets(fields, i)[k - i] == Assign(fields[k].column, k + 1)
    decreases |fields| - i
  {
    SetsLength(fields, i + 1);
    if i < k {
      SetsAt(fields, i + 1, k);
    }
  }

  lemma {:induction false} SetsLength(fields: seq<UpdateField>, i: nat)
    requires i <= |fields|
    ensures |Sets(fields, i)| == |fields| - i
    decreases |fields| - i
  {
    if i < |fields| {
      SetsLength(fields, i + 1);
    }
  }

  predicate DistinctColumns(fields: seq<UpdateField>) {
    forall i, j :: 0 <= i < j < |fields| ==> fields[i].column != fields[j].column
  }

  function ColumnsOf(fields: seq<UpdateField>): set<string> {
    set f <- fields :: f.column
  }

  /** A row afterwards, column by column: the field's value if there is one, else as before. */
  ghost predicate RowPatched(row: Row, row': Row, fields: seq<UpdateField>) {
    && row'.Keys == row.Keys + ColumnsOf(fields)
    && (forall f <- fields :: f.column in row' && row'[f.column] == f.value)
    && (forall c <- row :: c !in ColumnsOf(fields) ==> c in row' && row'[c] == row[c])
  }

  lemma PatchOneMore(row: Row, before: Row, fields: seq<UpdateField>, f: UpdateField, after: Row, all: seq<UpdateField>)
    requires RowPatched(row, before, fields) && f.column !in ColumnsOf(fields)
    requires after == before[f.column := f.value] && all == fields + [f]
    ensures RowPatched(row, after, all)
  {
    assert ColumnsOf(all) == ColumnsOf(fields) + {f.column};
    forall g | g in all
      ensures g.column in after && after[g.column] == g.value
    {
      if g in fields {
        assert g.column in ColumnsOf(fields);
      }
    }
  }

  lemma NothingPatched(row: Row)
    ensures RowPatched(row, row, [])
  {
  }

  /** sets and args are what the printer makes of fields. */
  ghost predicate Prints(fields: seq<UpdateField>, sets: seq<Assign>, args: seq<Value>) {
    && |fields| == |sets| <= |args|
    && forall k :: 0 <= k < |fields| ==> sets[k] == Assign(fields[k].column, k + 1) && args[k] == fields[k].value
  }

  lemma PrintsBound(fields: seq<UpdateField>, sets: seq<Assign>, args: seq<Value>)
    requires Prints(fields, sets, args)
    ensures forall a <- sets :: 1 <= a.param <= |args|
  {
  }

  lemma PrintsFront(fields: seq<UpdateField>, sets: seq<Assign>, args: seq<Value>, n: nat)
    requires Prints(fields, sets, args) && |fields| == n + 1
    ensures Prints(fields[..n], sets[..n], args)
    ensures sets[n] == Assign(fields[n].column, n + 1) && args[n] == fields[n].value
  {
  }

  lemma DistinctFront(fields: seq<UpdateField>, n: nat)
    requires DistinctColumns(fields) && |fields| == n + 1
    ensures DistinctColumns(fields[..n]) && fields[n].column !in ColumnsOf(fields[..n])
  {
  }

  /** One assignment more is one map update more. */
  lemma AssignedSnoc(row: Row, sets: seq<Assign>, args: seq<Value>, n: nat)
    requires |sets| == n + 1 && forall a <- sets :: 1 <= a.param <= |args|
    ensures (forall a <- sets[..n] :: 1 <= a.param <= |args|) && 1 <= sets[n].param <= |args|
    ensures Assigned(row, sets, args) == Assigned(row, sets[..n], args)[sets[n].column := args[sets[n].param - 1]]
  {
  }

  lemma {:induction false} AssignedPatches(row: Row, fields: seq<UpdateField>, sets: seq<Assign>, args: seq<Value>)
    requires Prints(fields, sets, args) && DistinctColumns(fields)
    ensures (forall a <- sets :: 1 <= a.param <= |args|) && RowPatched(row, Assigned(row, sets, args), fields)
    decreases |fields|
  {
    PrintsBound(fields, sets, args);
    if fields == [] {
      NothingPatched(row);
    } else {
      var n := |fields| - 1;
      PrintsFront(fields, sets, args, n);
      DistinctFront(fields, n);
      AssignedPatches(row, fields[..n], sets[..n], args);
      AssignedStep(row, fields, sets, args, n);
    }
  }

  lemma AssignedStep(row: Row, fields: seq<UpdateField>, sets: seq<Assign>, args: seq<Value>, n: nat)
    requires |fields| == |sets| == n + 1 <= |args| && (forall a <- sets :: 1 <= a.param <= |args|)
    requires sets[n] == Assign(fields[n].column, n + 1) && args[n] == fields[n].value
    requires fields[n].column !in ColumnsOf(fields[..n])
    requires (forall a <- sets[..n] :: 1 <= a.param <= |args|) && RowPatched(row, Assigned(row, sets[..n], args), fields[..n])
    ensures RowPatched(row, Assigned(row, sets, args), fields)
  {
    AssignedSnoc(row, sets, args, n);
    assert fields == fields[..n] + [fields[n]];
    PatchOneMore(row, Assigned(row, sets[..n], args), fields[..n], fields[n], Assigned(row, sets, args), fields);
  }

  /** Only row id changes, and it changes as the fields say. */
  ghost predicate OnlyRowPatched(table: Table, table': Table, id: string, fields: seq<UpdateField>) {
    && table'.Keys == table.Keys
    && (forall k <- table :: k != id ==> table'[k] == table[k])
    && (id in table ==> RowPatched(table[id], table'[id], fields))
  }

  lemma ExecuteMeaning(fields: seq<UpdateField>, sets: seq<Assign>, args: seq<Value>, id: string, table: Table)
    requires Prints(fields, sets, args) && DistinctColumns(fields)
    requires |args| == |fields| + 1 && args[|fields|] == Text(id)
    ensures var st := Stmt(sets, |fields| + 1);
            Bound(st, args) && OnlyRowPatched(table, Execute(st, args, table), id, fields)
  {
    PrintsBound(fields, sets, args);
    if id in table {
      AssignedPatches(table[id], fields, sets, args);
    }
  }

  /** The effect of running the text PrintUpdate hands to the driver, if it can be read at all. */
  ghost predicate RunsAs(fields: seq<UpdateField>, id: string, table: Table, table': Table) {
    match ReadUpdate(UpdateText(fields))
    case None => false
    case Some(st) => Bound(st, UpdateArgs(fields, id)) && table' == Execute(st, UpdateArgs(fields, id), table)
  }

  /**
    Executing the printed statement with its arguments changes no row but id's,
    sets each listed column of that row to its value, and leaves its other
    columns alone.
   */
  lemma PrintedUpdateMeaning(fields: seq<UpdateField>, id: string, table: Table) returns (table': Table)
    requires fields != [] && AllIdents(fields) && DistinctColumns(fields)
    ensures RunsAs(fields, id, table, table') && OnlyRowPatched(table, table', id, fields)
  {
    var sets, args := Sets(fields, 0), UpdateArgs(fields, id);
    SetsLength(fields, 0);
    forall k | 0 <= k < |fields|
      ensures sets[k] == Assign(fields[k].column, k + 1)
    {
      SetsAt(fields, 0, k);
    }
    ExecuteMeaning(fields, sets, args, id, table);
    table' := Execute(Stmt(sets, |fields| + 1), args, table);
    ReadPrinted(fields);
  }

  // ---------------------------------------------------------------------
  // End to end
  // ---------------------------------------------------------------------

  function Named(fs: seq<Field>): seq<UpdateField> {
    seq(|fs|, i requires 0 <= i < |fs| => UpdateField(NameOf(fs[i].column), fs[i].value))
  }

  lemma UserNamesAreIdents(c: Column)
    requires c.Name? || c.Token? || c.Webhook? || c.Expiration? || c.Events? || c.History?
    ensures IsIdent(NameOf(c))
  {
  }

  lemma StoreNamesAreIdents(c: Column)
    requires c.ProxyUrl? || c.S3Enabled? || c.S3Endpoint? || c.S3Region? || c.S3Bucket?
    ensures IsIdent(NameOf(c))
  {
  }

  lemma AccessNamesAreIdents(c: Column)
    requires c.S3AccessKey? || c.S3SecretKey? || c.S3PathStyle?
    ensures IsIdent(NameOf(c))
  {
  }

  lemma DeliveryNamesAreIdents(c: Column)
    requires c.S3PublicUrl? || c.MediaDelivery? || c.S3RetentionDays?
    ensures IsIdent(NameOf(c))
  {
  }

  lemma NamesAreIdents(c: Column)
    ensures IsIdent(NameOf(c))
  {
    if c.ProxyUrl? || c.S3Enabled? || c.S3Endpoint? || c.S3Region? || c.S3Bucket? {
      StoreNamesAreIdents(c);
    } else if c.S3AccessKey? || c.S3SecretKey? || c.S3PathStyle? {
      AccessNamesAreIdents(c);
    } else if c.S3PublicUrl? || c.MediaDelivery? || c.S3RetentionDays? {
      DeliveryNamesAreIdents(c);
    } else {
      UserNamesAreIdents(c);
    }
  }

  /** The column a name belongs to. */
  function ColumnNamed(s: string): Option<Column> {
    if s == "name" then Some(Name)
    else if s == "token" then Some(Token)
    else if s == "webhook" then Some(Webhook)
    else if s == "expiration" then Some(Expiration)
    else if s == "events" then Some(Events)
    else if s == "history" then Some(History)
    else if s == "proxy_url" then Some(ProxyUrl)
    else if s == "s3_enabled" then Some(S3Enabled)
    else if s == "s3_endpoint" then Some(S3Endpoint)
    else if s == "s3_region" then Some(S3Region)
    else if s == "s3_bucket" then Some(S3Bucket)
    else if s == "s3_access_key" then Some(S3AccessKey)
    else if s == "s3_secret_key" then Some(S3SecretKey)
    else if s == "s3_path_style" then Some(S3PathStyle)
    else if s == "s3_public_url" then Some(S3PublicUrl)
    else if s == "media_delivery" then Some(MediaDelivery)
    else if s == "s3_retention_days" then Some(S3RetentionDays)
    else None
  }

  lemma NamesDistinct(c: Column)
    ensures ColumnNamed(NameOf(c)) == Some(c)
  {
  }

  lemma NameInjective(c: Column, d: Column)
    requires NameOf(c) == NameOf(d)
    ensures c == d
  {
    NamesDistinct(c);
    NamesDistinct(d);
  }

  /** The fields of a patch have distinct, well-formed column names. */
  lemma CompiledFields(u: UpdateInput)
    ensures AllIdents(Named(Patched(u, COLUMN_COUNT))) && DistinctColumns(Named(Patched(u, COLUMN_COUNT)))
  {
    var fs := Patched(u, COLUMN_COUNT);
    forall i | 0 <= i < |fs|
      ensures IsIdent(NameOf(fs[i].column))
    {
      NamesAreIdents(fs[i].column);
    }
    forall i, j | 0 <= i < j < |fs|
      ensures NameOf(fs[i].column) != NameOf(fs[j].column)
    {
      PatchedDistinct(u, COLUMN_COUNT, i, j);
      if NameOf(fs[i].column) == NameOf(fs[j].column) {
        NameInjective(fs[i].column, fs[j].column);
      }
    }
  }

  /** What the patch promises for a row: patched columns get their patch value, every other column is as before. */
  ghost predicate PatchApplied(u: UpdateInput, row: Row, row': Row) {
    && (forall c: Column ::
          match Patch(u, c)
          case Some(v) => NameOf(c) in row' && row'[NameOf(c)] == v
          case None => Same(row, row', NameOf(c)))
    && (forall s: string :: ColumnNamed(s).None? ==> Same(row, row', s))
  }

  ghost predicate Same(row: Row, row': Row, s: string) {
    (s in row' <==> s in row) && (s in row ==> row'[s] == row[s])
  }

  lemma RowPatchedMeansPatch(u: UpdateInput, row: Row, row': Row)
    requires RowPatched(row, row', Named(Patched(u, COLUMN_COUNT)))
    ensures PatchApplied(u, row, row')
  {
    var fs := Patched(u, COLUMN_COUNT);
    var named := Named(fs);
    forall c: Column
      ensures match Patch(u, c)
              case Some(v) => NameOf(c) in row' && row'[NameOf(c)] == v
              case None => Same(row, row', NameOf(c))
    {
      if Patch(u, c).Some? {
        var k := RankOf(c);
        var i := PatchedComplete(u, COLUMN_COUNT, k);
        PatchedSound(u, COLUMN_COUNT, i);
        assert named[i] in named;
      } else {
        assert forall d: Column :: Patch(u, d).Some? ==> NameOf(d) != NameOf(c) by { NamesApart(u, c); }
        NotListed(u, NameOf(c));
      }
    }
    forall s: string | ColumnNamed(s).None?
      ensures Same(row, row', s)
    {
      assert forall d: Column :: NameOf(d) != s by { NamesKnown(s); }
      NotListed(u, s);
    }
  }

  lemma NamesApart(u: UpdateInput, c: Column)
    requires Patch(u, c).None?
    ensures forall d: Column :: Patch(u, d).Some? ==> NameOf(d) != NameOf(c)
  {
    forall d: Column | Patch(u, d).Some?
      ensures NameOf(d) != NameOf(c)
    {
      if NameOf(d) == NameOf(c) {
        NameInjective(c, d);
      }
    }
  }

  lemma NamesKnown(s: string)
    requires ColumnNamed(s).None?
    ensures forall d: Column :: NameOf(d) != s
  {
    forall d: Column
      ensures NameOf(d) != s
    {
      NamesDistinct(d);
    }
  }

  /** A name that is no patched column's is not among the fields. */
  lemma NotListed(u: UpdateInput, s: string)
    requires forall c: Column :: Patch(u, c).Some? ==> NameOf(c) != s
    ensures s !in ColumnsOf(Named(Patched(u, COLUMN_COUNT)))
  {
    var fs := Patched(u, COLUMN_COUNT);
    forall i | 0 <= i < |fs|
      ensures NameOf(fs[i].column) != s
    {
      PatchedSound(u, COLUMN_COUNT, i);
    }
  }

  // The same promise once more, by SQL name and input field.

  /** The column gets the value if there is one, else stays as it was. */
  ghost predicate Becomes(row: Row, row': Row, s: string, v: Option<Value>) {
    match v
    case Some(x) => s in row' && row'[s] == x
    case None => Same(row, row', s)
  }

  function TextUnlessEmpty(s: string): Option<Value> {
    if s == "" then None else Some(Text(s))
  }

  function IntUnlessZero(n: int): Option<Value> {
    if n == 0 then None else Some(Int(n))
  }

  ghost predicate UserColumnsSet(u: UpdateInput, row: Row, row': Row) {
    && Becomes(row, row', "name", TextUnlessEmpty(u.name))
    && Becomes(row, row', "token", TextUnlessEmpty(u.token))
    && Becomes(row, row', "webhook", TextUnlessEmpty(u.webhook))
    && Becomes(row, row', "expiration", IntUnlessZero(u.expiration))
    && Becomes(row, row', "events", TextUnlessEmpty(u.events))
    && Becomes(row, row', "history", IntUnlessZero(u.history))
    && (u.proxyConfig.None? ==> Same(row, row', "proxy_url"))
    && (u.proxyConfig.Some? && u.proxyConfig.value.enabled ==>
          Becomes(row, row', "proxy_url", Some(Text(u.proxyConfig.value.proxyURL))))
    && (u.proxyConfig.Some? && !u.proxyConfig.value.enabled ==> Becomes(row, row', "proxy_url", Some(Text(""))))
  }

  ghost predicate Holds(row: Row, s: string, v: Value) {
    s in row && row[s] == v
  }

  /** Where and with what credentials, in the row's S3 columns. */
  ghost predicate StoreAccess(row: Row, c: S3Config) {
    && Holds(row, "s3_endpoint", Text(c.endpoint))
    && Holds(row, "s3_region", Text(c.region))
    && Holds(row, "s3_bucket", Text(c.bucket))
    && Holds(row, "s3_access_key", Text(c.accessKey))
    && Holds(row, "s3_secret_key", Text(c.secretKey))
  }

  /** The remaining S3 columns. */
  ghost predicate StoreOptions(row: Row, c: S3Config) {
    && Holds(row, "s3_enabled", Flag(c.enabled))
    && Holds(row, "s3_path_style", Flag(c.pathStyle))
    && Holds(row, "s3_public_url", Text(c.publicURL))
    && Holds(row, "media_delivery", Text(c.mediaDelivery))
    && Holds(row, "s3_retention_days", Int(c.retentionDays))
  }

  /** The ten S3 columns of the row spell this config. */
  ghost predicate StoreReads(row: Row, c: S3Config) {
    StoreAccess(row, c) && StoreOptions(row, c)
  }

  /** A row spells at most one config, so StoreReads is reading it back. */
  lemma StoreReadsOne(row: Row, c: S3Config, d: S3Config)
    requires StoreReads(row, c) && StoreReads(row, d)
    ensures c == d
  {
    assert StoreAccess(row, c) && StoreAccess(row, d);
    assert StoreOptions(row, c) && StoreOptions(row, d);
  }

  ghost predicate AccessKept(row: Row, row': Row) {
    && Same(row, row', "s3_endpoint") && Same(row, row', "s3_region") && Same(row, row', "s3_bucket")
    && Same(row, row', "s3_access_key") && Same(row, row', "s3_secret_key")
  }

  ghost predicate OptionsKept(row: Row, row': Row) {
    && Same(row, row', "s3_enabled") && Same(row, row', "s3_path_style") && Same(row, row', "s3_public_url")
    && Same(row, row', "media_delivery") && Same(row, row', "s3_retention_days")
  }

  /** With an S3 config in the patch the row's S3 columns spell that config, without one they stay. */
  ghost predicate StoreColumnsSet(u: UpdateInput, row: Row, row': Row) {
    && (u.s3Config.Some? ==> StoreReads(row', u.s3Config.value))
    && (u.s3Config.None? ==> AccessKept(row, row') && OptionsKept(row, row'))
  }

  lemma ColumnBecomes(u: UpdateInput, row: Row, row': Row, c: Column, s: string, v: Option<Value>)
    requires PatchApplied(u, row, row') && s == NameOf(c) && v == Patch(u, c)
    ensures Becomes(row, row', s, v)
  {
  }

  lemma AppliedUserColumns(u: UpdateInput, row: Row, row': Row)
    requires PatchApplied(u, row, row')
    ensures UserColumnsSet(u, row, row')
  {
    ColumnBecomes(u, row, row', Name, "name", TextUnlessEmpty(u.name));
    ColumnBecomes(u, row, row', Token, "token", TextUnlessEmpty(u.token));
    ColumnBecomes(u, row, row', Webhook, "webhook", TextUnlessEmpty(u.webhook));
    ColumnBecomes(u, row, row', Expiration, "expiration", IntUnlessZero(u.expiration));
    ColumnBecomes(u, row, row', Events, "events", TextUnlessEmpty(u.events));
    ColumnBecomes(u, row, row', History, "history", IntUnlessZero(u.history));
    ColumnBecomes(u, row, row', ProxyUrl, "proxy_url", Patch(u, ProxyUrl));
  }

  lemma StoreColumn(u: UpdateInput, row: Row, row': Row, c: Column, s: string, v: Value)
    requires PatchApplied(u, row, row') && s == NameOf(c)
    requires match u.s3Config case None => Patch(u, c) == None case Some(_) => Patch(u, c) == Some(v)
    ensures u.s3Config.Some? ==> s in row' && row'[s] == v
    ensures u.s3Config.None? ==> Same(row, row', s)
  {
    ColumnBecomes(u, row, row', c, s, Patch(u, c));
  }

  lemma AppliedAccess(u: UpdateInput, row: Row, row': Row, c: S3Config)
    requires PatchApplied(u, row, row') && (u.s3Config.Some? ==> c == u.s3Config.value)
    ensures u.s3Config.Some? ==> StoreAccess(row', c)
    ensures u.s3Config.None? ==> AccessKept(row, row')
  {
    StoreColumn(u, row, row', S3Endpoint, "s3_endpoint", Text(c.endpoint));
    StoreColumn(u, row, row', S3Region, "s3_region", Text(c.region));
    StoreColumn(u, row, row', S3Bucket, "s3_bucket", Text(c.bucket));
    StoreColumn(u, row, row', S3AccessKey, "s3_access_key", Text(c.accessKey));
    StoreColumn(u, row, row', S3SecretKey, "s3_secret_key", Text(c.secretKey));
  }

  lemma AppliedOptions(u: UpdateInput, row: Row, row': Row, c: S3Config)
    requires PatchApplied(u, row, row') && (u.s3Config.Some? ==> c == u.s3Config.value)
    ensures u.s3Config.Some? ==> StoreOptions(row', c)
    ensures u.s3Config.None? ==> OptionsKept(row, row')
  {
    StoreColumn(u, row, row', S3Enabled, "s3_enabled", Flag(c.enabled));
    StoreColumn(u, row, row', S3PathStyle, "s3_path_style", Flag(c.pathStyle));
    StoreColumn(u, row, row', S3PublicUrl, "s3_public_url", Text(c.publicURL));
    StoreColumn(u, row, row', MediaDelivery, "media_delivery", Text(c.mediaDelivery));
    StoreColumn(u, row, row', S3RetentionDays, "s3_retention_days", Int(c.retentionDays));
  }

  lemma AppliedStoreColumns(u: UpdateInput, row: Row, row': Row)
    requires PatchApplied(u, row, row')
    ensures StoreColumnsSet(u, row, row')
  {
    var c := if u.s3Config.Some? then u.s3Config.value else S3Config(false, "", "", "", "", "", false, "", "", 0);
    AppliedAccess(u, row, row', c);
    AppliedOptions(u, row, row', c);
  }

  /**
    The whole compilation preserves meaning: for every patch that changes
    anything, reading the printed UPDATE back and executing it with its arguments
    leaves all other rows alone and turns row id into exactly what the patch
    says, column by column: each column by its SQL name has the value of its
    input field, and an S3 config reads back from its ten columns.
   */
  lemma CompilationPreservesMeaning(u: UpdateInput, id: string, table: Table) returns (table': Table)
    requires ChangesSomething(u)
    ensures RunsAs(Named(Patched(u, COLUMN_COUNT)), id, table, table')
    ensures table'.Keys == table.Keys && forall k <- table :: k != id ==> table'[k] == table[k]
    ensures id in table ==> PatchApplied(u, table[id], table'[id])
    ensures id in table ==> UserColumnsSet(u, table[id], table'[id]) && StoreColumnsSet(u, table[id], table'[id])
  {
    NoFieldsIffNoPatch(u);
    CompiledFields(u);
    table' := PrintedUpdateMeaning(Named(Patched(u, COLUMN_COUNT)), id, table);
    if id in table {
      RowPatchedMeansPatch(u, table[id], table'[id]);
      AppliedUserColumns(u, table[id], table'[id]);
      AppliedStoreColumns(u, table[id], table'[id]);
    }
  }
}
