/** How payloads are encoded: `json.Marshal` in internal/adapters/realtime/handler.go, and the
    reading back of what it writes, by section 7 of RFC 8259. */
module Json {
  import opened Domain
  import opened EventStreams
  import opened Rows
  import opened SortKeys
  import opened Scripts
  import opened Connections

  // ----- characters --------------------------------------------------------------------------

  function HexDigit(d: nat): (c: char)
    requires d < 16
    ensures HexValue(c) == Some(d) && !IsBreak(c)
  {
    if d < 10 then ('0' as int + d) as char else ('a' as int + d - 10) as char
  }

  function HexValue(c: char): Option<nat> {
    if '0' <= c <= '9' then Some(c as nat - '0' as nat)
    else if 'a' <= c <= 'f' then Some(c as nat - 'a' as nat + 10)
    else if 'A' <= c <= 'F' then Some(c as nat - 'A' as nat + 10)
    else None
  }

  function Hex(c: char): string
    requires c as int < 0x10000
  {
    var n := c as nat;
    [HexDigit(n / 0x1000), HexDigit(n / 0x100 % 0x10), HexDigit(n / 0x10 % 0x10), HexDigit(n % 0x10)]
  }

  /** Control characters, the characters of markup, and the two line separators are escaped. */
  predicate ByNumber(c: char) {
    || c < ' ' || c == '<' || c == '>' || c == '&' || c == '\U{2028}' || c == '\U{2029}'
  }

  /** The letter a character is escaped by, if it has one. */
  function Letter(c: char): Option<char> {
    if c == '"' || c == '\\' then Some(c)
    else if c == '\n' then Some('n')
    else if c == '\r' then Some('r')
    else if c == '\t' then Some('t')
    else if c == '\U{8}' then Some('b')
    else if c == '\U{C}' then Some('f')
    else None
  }

  function Unletter(c: char): Option<char> {
    if c == '"' || c == '\\' || c == '/' then Some(c)
    else if c == 'n' then Some('\n')
    else if c == 'r' then Some('\r')
    else if c == 't' then Some('\t')
    else if c == 'b' then Some('\U{8}')
    else if c == 'f' then Some('\U{C}')
    else None
  }

  function Escape(c: char): (s: string)
    ensures s != [] && NoBreaks(s)
    ensures forall x :: x in s ==> x >= ' ' && x != '<' && x != '>' && x != '&' && x != '\U{2028}' && x != '\U{2029}'
  {
    if Letter(c).Some? then ['\\', Letter(c).value]
    else if ByNumber(c) then ['\\', 'u'] + Hex(c)
    else [c]
  }

  // ----- strings -----------------------------------------------------------------------------

  function EscapeAll(s: string): string {
    if s == [] then [] else Escape(s[0]) + EscapeAll(s[1..])
  }

  function Quote(s: string): string {
    ['"'] + (EscapeAll(s) + ['"'])
  }

  /** One character, plain or escaped, from the front of a string's text. */
  function ReadChar(s: string): Option<(char, string)> {
    if s == [] || s[0] == '"' then None
    else if s[0] != '\\' then Some((s[0], s[1..]))
    else if |s| < 2 then None
    else if s[1] == 'u' then ReadHex(s)
    else
      match Unletter(s[1])
      case Some(c) => Some((c, s[2..]))
      case None => None
  }

  function ReadHex(s: string): Option<(char, string)>
    requires |s| >= 2
  {
    if |s| < 6 then None
    else
      match (HexValue(s[2]), HexValue(s[3]), HexValue(s[4]), HexValue(s[5]))
      case (Some(a), Some(b), Some(c), Some(d)) =>
        var n := ((a * 16 + b) * 16 + c) * 16 + d;
        if n < 0xD800 || 0xE000 <= n < 0x10000 then Some((n as char, s[6..])) else None
      case _ => None
  }

  /** A string's text up to its closing quote, and what follows it. */
  function ReadChars(s: string): Option<(string, string)>
    decreases |s|
  {
    if s != [] && s[0] == '"' then Some(([], s[1..]))
    else
      match ReadChar(s)
      case None => None
      case Some((c, rest)) =>
        if |rest| >= |s| then None
        else
          match ReadChars(rest)
          case None => None
          case Some((text, after)) => Some(([c] + text, after))
  }

  function ReadString(s: string): Option<(string, string)> {
    if s != [] && s[0] == '"' then ReadChars(s[1..]) else None
  }

  lemma HexDigitsAdd(n: nat)
    requires n < 0x10000
    ensures ((n / 0x1000 * 16 + n / 0x100 % 0x10) * 16 + n / 0x10 % 0x10) * 16 + n % 0x10 == n
  {
  }

  lemma HexReads(c: char, rest: string)
    requires c as int < 0x10000
    ensures ReadHex(['\\', 'u'] + Hex(c) + rest) == Some((c, rest))
  {
    var s := ['\\', 'u'] + Hex(c) + rest;
    HexDigitsAdd(c as nat);
    assert s[2..6] == Hex(c) && s[6..] == rest;
    assert s[2] == Hex(c)[0] && s[3] == Hex(c)[1] && s[4] == Hex(c)[2] && s[5] == Hex(c)[3];
  }

  lemma EscapeReads(c: char, rest: string)
    ensures ReadChar(Escape(c) + rest) == Some((c, rest))
    ensures (Escape(c) + rest)[0] != '"'
  {
    var s := Escape(c) + rest;
    if Letter(c).Some? {
      assert s[0] == '\\' && s[1] == Letter(c).value && s[2..] == rest;
    } else if ByNumber(c) {
      HexReads(c, rest);
      assert s[0] == '\\' && s[1] == 'u';
    } else {
      assert s[0] == c && s[1..] == rest;
    }
  }

  lemma {:induction false} OneMoreChar(c: char, more: string)
    ensures ReadChars(Escape(c) + more)
            == match ReadChars(more) case None => None case Some((text, after)) => Some(([c] + text, after))
  {
    EscapeReads(c, more);
  }

  lemma Onward(a: string, b: string, c: string)
    ensures a + b + c == a + (b + c)
  {
  }

  lemma {:induction false} NoChars(rest: string)
    ensures ReadChars(EscapeAll([]) + (['"'] + rest)) == Some(([], rest))
  {
    assert EscapeAll([]) + (['"'] + rest) == ['"'] + rest;
    assert (['"'] + rest)[1..] == rest;
  }

  lemma {:induction false} CharsRead(text: string, rest: string)
    ensures ReadChars(EscapeAll(text) + (['"'] + rest)) == Some((text, rest))
  {
    if text == [] {
      NoChars(rest);
    } else {
      var more := EscapeAll(text[1..]) + (['"'] + rest);
      CharsRead(text[1..], rest);
      Onward(Escape(text[0]), EscapeAll(text[1..]), ['"'] + rest);
      OneMoreChar(text[0], more);
      assert [text[0]] + text[1..] == text;
    }
  }

  /** A quoted string reads back, whatever characters are in it. */
  lemma QuoteReads(text: string, rest: string)
    ensures ReadString(Quote(text) + rest) == Some((text, rest))
  {
    CharsRead(text, rest);
    assert (Quote(text) + rest)[1..] == EscapeAll(text) + (['"'] + rest);
  }

  lemma {:induction false} EscapedHasNoBreaks(text: string)
    ensures NoBreaks(EscapeAll(text))
  {
    if text != [] { EscapedHasNoBreaks(text[1..]); }
  }

  lemma QuotedHasNoBreaks(text: string)
    ensures NoBreaks(Quote(text))
  {
    EscapedHasNoBreaks(text);
  }

  // ----- what is between strings -----------------------------------------------------------------

  function Skip(c: char, s: string): Option<string> {
    if s != [] && s[0] == c then Some(s[1..]) else None
  }

  lemma Skips(c: char, rest: string)
    ensures Skip(c, [c] + rest) == Some(rest)
  {
  }

  /** A member of an object whose value is a string. */
  function Field(key: string, value: string): string {
    Quote(key) + ([':'] + Quote(value))
  }

  function ReadKey(key: string, s: string): Option<string> {
    match ReadString(s)
    case Some((read, rest)) => if read == key then Skip(':', rest) else None
    case None => None
  }

  function ReadField(key: string, s: string): Option<(string, string)> {
    match ReadKey(key, s)
    case Some(rest) => ReadString(rest)
    case None => None
  }

  lemma KeyReads(key: string, rest: string)
    ensures ReadKey(key, Quote(key) + ([':'] + rest)) == Some(rest)
  {
    QuoteReads(key, [':'] + rest);
    Skips(':', rest);
  }

  lemma FieldReads(key: string, value: string, rest: string)
    ensures ReadField(key, Field(key, value) + rest) == Some((value, rest))
  {
    assert Field(key, value) + rest == Quote(key) + ([':'] + (Quote(value) + rest));
    KeyReads(key, Quote(value) + rest);
    QuoteReads(value, rest);
  }

  lemma FieldHasNoBreaks(key: string, value: string)
    ensures NoBreaks(Field(key, value))
  {
    QuotedHasNoBreaks(key);
    QuotedHasNoBreaks(value);
  }

  // ----- rows --------------------------------------------------------------------------------------

  function RowText(row: RowPayload): string {
    ['{'] + (Field("id", row.id) + ([','] + (Field("html", row.html) + ['}'])))
  }

  function ReadRow(s: string): Option<(RowPayload, string)> {
    match Skip('{', s)
    case None => None
    case Some(fields) =>
      match ReadField("id", fields)
      case None => None
      case Some((id, more)) => ReadRowHtml(id, more)
  }

  function ReadRowHtml(id: string, s: string): Option<(RowPayload, string)> {
    match Skip(',', s)
    case None => None
    case Some(field) =>
      match ReadField("html", field)
      case None => None
      case Some((html, end)) =>
        match Skip('}', end)
        case None => None
        case Some(rest) => Some((RowPayload(id, html), rest))
  }

  lemma RowHtmlReads(id: string, html: string, rest: string)
    ensures ReadRowHtml(id, [','] + (Field("html", html) + (['}'] + rest))) == Some((RowPayload(id, html), rest))
  {
    Skips(',', Field("html", html) + (['}'] + rest));
    FieldReads("html", html, ['}'] + rest);
    Skips('}', rest);
  }

  lemma RowThen(row: RowPayload, rest: string)
    ensures RowText(row) + rest == ['{'] + (Field("id", row.id) + ([','] + (Field("html", row.html) + (['}'] + rest))))
  {
    var id, html := Field("id", row.id), Field("html", row.html);
    Onward(['{'], id + ([','] + (html + ['}'])), rest);
    Onward(id, [','] + (html + ['}']), rest);
    Onward([','], html + ['}'], rest);
    Onward(html, ['}'], rest);
  }

  lemma RowReads(row: RowPayload, rest: string)
    ensures ReadRow(RowText(row) + rest) == Some((row, rest))
  {
    var more := [','] + (Field("html", row.html) + (['}'] + rest));
    RowThen(row, rest);
    Skips('{', Field("id", row.id) + more);
    FieldReads("id", row.id, more);
    RowHtmlReads(row.id, row.html, rest);
  }

  /** The rows of a list, and its closing bracket. */
  function RowsText(rows: seq<RowPayload>): string {
    if rows == [] then [']']
    else RowText(rows[0]) + (if |rows| == 1 then [']'] else [','] + RowsText(rows[1..]))
  }

  function ReadRows(s: string): Option<(seq<RowPayload>, string)>
    decreases |s|
  {
    match ReadRow(s)
    case None => None
    case Some((row, more)) =>
      if Skip(']', more).Some? then Some(([row], Skip(']', more).value))
      else if Skip(',', more).None? || |more| > |s| then None
      else
        match ReadRows(Skip(',', more).value)
        case None => None
        case Some((rows, rest)) => Some(([row] + rows, rest))
  }

  function ReadList(s: string): Option<(seq<RowPayload>, string)> {
    if Skip(']', s).Some? then Some(([], Skip(']', s).value)) else ReadRows(s)
  }

  lemma RowStarts(row: RowPayload, rest: string)
    ensures Skip(']', RowText(row) + rest) == None
    ensures |RowText(row) + rest| > |rest|
  {
    assert (RowText(row) + rest)[0] == '{';
  }

  lemma {:induction false} LastRowReads(row: RowPayload, rest: string)
    ensures ReadRows(RowText(row) + ([']'] + rest)) == Some(([row], rest))
  {
    RowReads(row, [']'] + rest);
    Skips(']', rest);
  }

  lemma {:induction false} RowThenRowsRead(row: RowPayload, more: string)
    ensures ReadRows(RowText(row) + ([','] + more))
            == match ReadRows(more) case None => None case Some((rows, rest)) => Some(([row] + rows, rest))
  {
    RowReads(row, [','] + more);
    RowStarts(row, [','] + more);
    Skips(',', more);
  }

  lemma {:induction false} RowsThen(rows: seq<RowPayload>, rest: string)
    requires rows != []
    ensures RowsText(rows) + rest
            == RowText(rows[0]) + (if |rows| == 1 then [']'] + rest else [','] + (RowsText(rows[1..]) + rest))
  {
    var row := RowText(rows[0]);
    if |rows| == 1 {
      Onward(row, [']'], rest);
    } else {
      Onward(row, [','] + RowsText(rows[1..]), rest);
      Onward([','], RowsText(rows[1..]), rest);
    }
  }

  lemma FirstAndRest(rows: seq<RowPayload>)
    requires rows != []
    ensures [rows[0]] + rows[1..] == rows
    ensures |rows| == 1 ==> rows == [rows[0]]
  {
  }

  lemma {:induction false} RowsRead(rows: seq<RowPayload>, rest: string)
    requires rows != []
    ensures ReadRows(RowsText(rows) + rest) == Some((rows, rest))
  {
    RowsThen(rows, rest);
    if |rows| == 1 {
      LastRowReads(rows[0], rest);
      FirstAndRest(rows);
    } else {
      RowsRead(rows[1..], rest);
      RowThenRowsRead(rows[0], RowsText(rows[1..]) + rest);
      FirstAndRest(rows);
    }
  }

  lemma {:induction false} ListReads(rows: seq<RowPayload>, rest: string)
    ensures ReadList(RowsText(rows) + rest) == Some((rows, rest))
  {
    if rows == [] {
      Skips(']', rest);
    } else {
      RowsThen(rows, rest);
      RowStarts(rows[0], if |rows| == 1 then [']'] + rest else [','] + (RowsText(rows[1..]) + rest));
      RowsRead(rows, rest);
    }
  }

  // ----- payloads ------------------------------------------------------------------------------------

  /** Markup is left out when there is none. */
  function HtmlText(html: string): string {
    if html == [] then [] else Field("html", html) + [',']
  }

  function FlagText(flag: bool): string {
    if flag then "true" else "false"
  }

  function SyncText(services: seq<RowPayload>): string {
    ['{'] + (Quote("services") + ([':'] + (['['] + (RowsText(services) + ['}']))))
  }

  function NotableText(notable: bool): string {
    Quote("notable") + ([':'] + (FlagText(notable) + ['}']))
  }

  function ChangeText(action: string, id: string, name: string, html: string, notable: bool): string {
    ['{'] + (Field("action", action) + ([','] + (Field("id", id) + ([','] + (Field("name", name)
      + ([','] + (HtmlText(html) + NotableText(notable))))))))
  }

  function Marshal(payload: Payload): string {
    match payload
    case SyncPayload(services) => SyncText(services)
    case ChangePayload(action, id, name, html, notable) => ChangeText(action, id, name, html, notable)
  }

  function ReadSync(s: string): Option<Payload> {
    match Skip('{', s)
    case None => None
    case Some(member) =>
      match ReadKey("services", member)
      case None => None
      case Some(list) =>
        match Skip('[', list)
        case None => None
        case Some(rows) =>
          match ReadList(rows)
          case None => None
          case Some((services, rest)) => if rest == "}" then Some(SyncPayload(services)) else None
  }

  function ReadNotable(s: string): Option<bool> {
    match ReadKey("notable", s)
    case None => None
    case Some(flag) => if flag == "true}" then Some(true) else if flag == "false}" then Some(false) else None
  }

  /** A field and the comma after it. */
  function ReadNext(key: string, s: string): Option<(string, string)> {
    match ReadField(key, s)
    case None => None
    case Some((value, more)) =>
      match Skip(',', more)
      case None => None
      case Some(rest) => Some((value, rest))
  }

  lemma NextReads(key: string, value: string, rest: string)
    ensures ReadNext(key, Field(key, value) + ([','] + rest)) == Some((value, rest))
  {
    FieldReads(key, value, [','] + rest);
    Skips(',', rest);
  }

  function ReadChange(s: string): Option<Payload> {
    match Skip('{', s)
    case None => None
    case Some(fields) =>
      match ReadNext("action", fields)
      case None => None
      case Some((action, more)) => ReadChanged(action, more)
  }

  function ReadChanged(action: string, s: string): Option<Payload> {
    match ReadNext("id", s)
    case None => None
    case Some((id, more)) =>
      match ReadNext("name", more)
      case None => None
      case Some((name, rest)) => ReadDrawn(action, id, name, rest)
  }

  function ReadDrawn(action: string, id: string, name: string, s: string): Option<Payload> {
    var (html, rest) := if ReadNext("html", s).Some? then ReadNext("html", s).value else ("", s);
    match ReadNotable(rest)
    case None => None
    case Some(notable) => Some(ChangePayload(action, id, name, html, notable))
  }

  /** A payload of either form is told by its first key. */
  function Unmarshal(text: string): Option<Payload> {
    if ReadSync(text).Some? then ReadSync(text) else ReadChange(text)
  }

  lemma SyncReads(services: seq<RowPayload>)
    ensures ReadSync(SyncText(services)) == Some(SyncPayload(services))
  {
    var list := RowsText(services) + ['}'];
    Skips('{', Quote("services") + ([':'] + (['['] + list)));
    KeyReads("services", ['['] + list);
    Skips('[', list);
    ListReads(services, ['}']);
  }

  lemma NotableReads(notable: bool)
    ensures ReadNotable(NotableText(notable)) == Some(notable)
  {
    KeyReads("notable", FlagText(notable) + ['}']);
  }

  lemma OtherKey(key: string, other: string, rest: string)
    requires key != other
    ensures ReadKey(key, Quote(other) + rest) == None
  {
    QuoteReads(other, rest);
  }

  lemma DrawnReads(action: string, id: string, name: string, html: string, notable: bool)
    ensures ReadDrawn(action, id, name, HtmlText(html) + NotableText(notable))
            == Some(ChangePayload(action, id, name, html, notable))
  {
    var end := NotableText(notable);
    NotableReads(notable);
    if html == [] {
      assert HtmlText(html) + end == end;
      OtherKey("html", "notable", [':'] + (FlagText(notable) + ['}']));
    } else {
      assert HtmlText(html) + end == Field("html", html) + ([','] + end);
      NextReads("html", html, end);
    }
  }

  lemma ChangedReads(action: string, id: string, name: string, html: string, notable: bool, drawn: string)
    requires drawn == HtmlText(html) + NotableText(notable)
    ensures ReadChanged(action, Field("id", id) + ([','] + (Field("name", name) + ([','] + drawn))))
            == Some(ChangePayload(action, id, name, html, notable))
  {
    NextReads("id", id, Field("name", name) + ([','] + drawn));
    NextReads("name", name, drawn);
    DrawnReads(action, id, name, html, notable);
  }

  lemma ChangeReads(action: string, id: string, name: string, html: string, notable: bool)
    ensures ReadChange(ChangeText(action, id, name, html, notable))
            == Some(ChangePayload(action, id, name, html, notable))
  {
    var drawn := HtmlText(html) + NotableText(notable);
    var changed := Field("id", id) + ([','] + (Field("name", name) + ([','] + drawn)));
    Skips('{', Field("action", action) + ([','] + changed));
    NextReads("action", action, changed);
    ChangedReads(action, id, name, html, notable, drawn);
  }

  lemma TogetherNoBreaks(a: string, b: string)
    requires NoBreaks(a) && NoBreaks(b)
    ensures NoBreaks(a + b)
  {
  }

  lemma FieldThenNoBreaks(key: string, value: string, rest: string)
    requires NoBreaks(rest)
    ensures NoBreaks(Field(key, value) + rest)
    ensures NoBreaks(Field(key, value) + ([','] + rest))
  {
    FieldHasNoBreaks(key, value);
    TogetherNoBreaks([','], rest);
    TogetherNoBreaks(Field(key, value), rest);
    TogetherNoBreaks(Field(key, value), [','] + rest);
  }

  lemma RowHasNoBreaks(row: RowPayload)
    ensures NoBreaks(RowText(row))
  {
    var html := Field("html", row.html) + ['}'];
    FieldThenNoBreaks("html", row.html, ['}']);
    FieldThenNoBreaks("id", row.id, html);
    TogetherNoBreaks(['{'], Field("id", row.id) + ([','] + html));
  }

  lemma {:induction false} RowsHaveNoBreaks(rows: seq<RowPayload>)
    ensures NoBreaks(RowsText(rows))
  {
    if rows != [] {
      RowHasNoBreaks(rows[0]);
      RowsHaveNoBreaks(rows[1..]);
      TogetherNoBreaks([','], RowsText(rows[1..]));
      TogetherNoBreaks(RowText(rows[0]), if |rows| == 1 then [']'] else [','] + RowsText(rows[1..]));
    }
  }

  lemma SyncHasNoBreaks(services: seq<RowPayload>)
    ensures NoBreaks(SyncText(services))
  {
    var list := ['['] + (RowsText(services) + ['}']);
    RowsHaveNoBreaks(services);
    TogetherNoBreaks(RowsText(services), ['}']);
    TogetherNoBreaks(['['], RowsText(services) + ['}']);
    QuotedHasNoBreaks("services");
    TogetherNoBreaks([':'], list);
    TogetherNoBreaks(Quote("services"), [':'] + list);
    TogetherNoBreaks(['{'], Quote("services") + ([':'] + list));
  }

  lemma NotableHasNoBreaks(notable: bool)
    ensures NoBreaks(NotableText(notable))
  {
    var flag := FlagText(notable) + ['}'];
    assert NoBreaks(flag);
    QuotedHasNoBreaks("notable");
    TogetherNoBreaks([':'], flag);
    TogetherNoBreaks(Quote("notable"), [':'] + flag);
  }

  lemma HtmlHasNoBreaks(html: string, rest: string)
    requires NoBreaks(rest)
    ensures NoBreaks(HtmlText(html) + rest)
  {
    FieldThenNoBreaks("html", html, [',']);
    TogetherNoBreaks(HtmlText(html), rest);
  }

  lemma ChangeHasNoBreaks(action: string, id: string, name: string, html: string, notable: bool)
    ensures NoBreaks(ChangeText(action, id, name, html, notable))
  {
    var drawn := HtmlText(html) + NotableText(notable);
    var named := Field("name", name) + ([','] + drawn);
    var changed := Field("id", id) + ([','] + named);
    NotableHasNoBreaks(notable);
    HtmlHasNoBreaks(html, NotableText(notable));
    FieldThenNoBreaks("name", name, drawn);
    FieldThenNoBreaks("id", id, named);
    FieldThenNoBreaks("action", action, changed);
    TogetherNoBreaks(['{'], Field("action", action) + ([','] + changed));
  }

  lemma MarshalHasNoBreaks(payload: Payload)
    ensures NoBreaks(Marshal(payload))
  {
    match payload
    case SyncPayload(services) => SyncHasNoBreaks(services);
    case ChangePayload(action, id, name, html, notable) => ChangeHasNoBreaks(action, id, name, html, notable);
  }

  lemma ChangeIsNoSync(action: string, id: string, name: string, html: string, notable: bool)
    ensures ReadSync(ChangeText(action, id, name, html, notable)) == None
  {
    var drawn := HtmlText(html) + NotableText(notable);
    var changed := Field("id", id) + ([','] + (Field("name", name) + ([','] + drawn)));
    var rest := [':'] + Quote(action) + ([','] + changed);
    assert Field("action", action) + ([','] + changed) == Quote("action") + rest;
    Skips('{', Quote("action") + rest);
    OtherKey("services", "action", rest);
  }

  /** What the service encodes stays on one line, and is what the page decodes. */
  lemma MarshalIsFaithful()
    ensures Faithful(Marshal, Unmarshal)
  {
    forall p {:trigger Marshal(p)} ensures NoBreaks(Marshal(p)) && Unmarshal(Marshal(p)) == Some(p) {
      MarshalHasNoBreaks(p);
      match p
      case SyncPayload(services) => SyncReads(services);
      case ChangePayload(action, id, name, html, notable) =>
        ChangeIsNoSync(action, id, name, html, notable);
        ChangeReads(action, id, name, html, notable);
    }
  }

  // ----- a drawing that is parsed ------------------------------------------------------------------

  /** The attributes of a row, each as a quoted string, and then what it shows. */
  function PlainDrawing(service: Service): Option<string> {
    Some(Quote(service.containerID) + (Quote(SortKey(service))
           + (Quote(FlagText(service.Online())) + Quote(service.status))))
  }

  function PlainParsing(html: string): Option<Row<string>> {
    match ReadString(html)
    case None => None
    case Some((id, more)) =>
      match ReadString(more)
      case None => None
      case Some((key, rest)) =>
        match ReadString(rest)
        case None => None
        case Some((online, _)) => Some(Row(id, key, online == "true", html))
  }

  /** There are drawings whose rows have the attributes of the services drawn. */
  lemma PlainDrawingDraws()
    ensures Draws(PlainDrawing, PlainParsing)
  {
    forall s {:trigger PlainDrawing(s)}
      ensures PlainParsing(PlainDrawing(s).value)
              == Some(Row(s.containerID, SortKey(s), s.Online(), PlainDrawing(s).value))
    {
      var online := FlagText(s.Online());
      QuoteReads(s.containerID, Quote(SortKey(s)) + (Quote(online) + Quote(s.status)));
      QuoteReads(SortKey(s), Quote(online) + Quote(s.status));
      QuoteReads(online, Quote(s.status));
    }
  }
}
