/** The `.env` fragment for the FastAPI services (infra/deploy/fastapi_env.py). */
module Dotenv {
  import opened Basics

  /** `s.replace(c, with)` for a one-character pattern. */
  function Replace(s: string, c: char, with: string): string {
    if s == "" then "" else (if s[0] == c then with else [s[0]]) + Replace(s[1..], c, with)
  }

  /** The four chained replacements, in the order of the program. */
  function EscapeValue(value: string): string {
    Replace(Replace(Replace(Replace(value, '\\', "\\\\"), '"', "\\\""), '\n', "\\n"), '\r', "\\r")
  }

  // --- The same, one character at a time ---

  function EncodeChar(c: char): (r: string)
    ensures 1 <= |r| <= 2
  {
    if c == '\\' then "\\\\"
    else if c == '"' then "\\\""
    else if c == '\n' then "\\n"
    else if c == '\r' then "\\r"
    else [c]
  }

  function Encode(value: string): string {
    if value == "" then "" else EncodeChar(value[0]) + Encode(value[1..])
  }

  lemma {:induction false} ReplaceSplits(s: string, t: string, c: char, with: string)
    ensures Replace(s + t, c, with) == Replace(s, c, with) + Replace(t, c, with)
  {
    if s == "" {
      assert s + t == t;
    } else {
      assert (s + t)[1..] == s[1..] + t;
      ReplaceSplits(s[1..], t, c, with);
      var head := if s[0] == c then with else [s[0]];
      assert head + (Replace(s[1..], c, with) + Replace(t, c, with))
          == head + Replace(s[1..], c, with) + Replace(t, c, with);
    }
  }

  lemma ReplaceOne(a: char, c: char, with: string)
    ensures Replace([a], c, with) == if a == c then with else [a]
  {
    assert [a][1..] == "";
  }

  lemma ReplaceTwo(a: char, b: char, c: char, with: string)
    requires a != c && b != c
    ensures Replace([a, b], c, with) == [a, b]
  {
    assert [a, b] == [a] + [b];
    ReplaceSplits([a], [b], c, with);
    ReplaceOne(a, c, with);
    ReplaceOne(b, c, with);
  }

  /** Later replacements leave alone what earlier ones wrote. */
  lemma EscapeOne(a: char)
    ensures EscapeValue([a]) == EncodeChar(a)
  {
    ReplaceOne(a, '\\', "\\\\");
    ReplaceOne(a, '"', "\\\"");
    ReplaceOne(a, '\n', "\\n");
    ReplaceOne(a, '\r', "\\r");
    if a == '\\' {
      ReplaceTwo('\\', '\\', '"', "\\\"");
      ReplaceTwo('\\', '\\', '\n', "\\n");
      ReplaceTwo('\\', '\\', '\r', "\\r");
    } else if a == '"' {
      ReplaceTwo('\\', '"', '\n', "\\n");
      ReplaceTwo('\\', '"', '\r', "\\r");
    } else if a == '\n' {
      ReplaceTwo('\\', 'n', '\r', "\\r");
    }
  }

  lemma EscapeSplits(s: string, t: string)
    ensures EscapeValue(s + t) == EscapeValue(s) + EscapeValue(t)
  {
    var s1, t1 := Replace(s, '\\', "\\\\"), Replace(t, '\\', "\\\\");
    var s2, t2 := Replace(s1, '"', "\\\""), Replace(t1, '"', "\\\"");
    var s3, t3 := Replace(s2, '\n', "\\n"), Replace(t2, '\n', "\\n");
    ReplaceSplits(s, t, '\\', "\\\\");
    ReplaceSplits(s1, t1, '"', "\\\"");
    ReplaceSplits(s2, t2, '\n', "\\n");
    ReplaceSplits(s3, t3, '\r', "\\r");
  }

  /** The chained replacements are one encoding, character by character. */
  lemma {:induction false} EscapeIsEncode(value: string)
    ensures EscapeValue(value) == Encode(value)
  {
    if value != "" {
      assert value == [value[0]] + value[1..];
      EscapeSplits([value[0]], value[1..]);
      EscapeOne(value[0]);
      EscapeIsEncode(value[1..]);
    }
  }

  // --- Reading a quoted value back ---

  /** Reads up to the closing quote: the value, and what follows the quote. */
  function ReadQuoted(s: string): Option<(string, string)> {
    if s == "" then None
    else if s[0] == '"' then Some(("", s[1..]))
    else if s[0] != '\\' then
      match ReadQuoted(s[1..])
      case Some((v, rest)) => Some(([s[0]] + v, rest))
      case None => None
    else if |s| == 1 then None
    else
      match (UnescapeChar(s[1]), ReadQuoted(s[2..]))
      case (Some(c), Some((v, rest))) => Some(([c] + v, rest))
      case _ => None
  }

  function UnescapeChar(c: char): Option<char> {
    match c
    case '\\' => Some('\\')
    case '"' => Some('"')
    case 'n' => Some('\n')
    case 'r' => Some('\r')
    case _ => None
  }

  lemma ReadOneEncoded(c: char, tail: string)
    ensures ReadQuoted(EncodeChar(c) + tail) ==
              match ReadQuoted(tail) case Some((v, rest)) => Some(([c] + v, rest)) case None => None
  {
    assert (EncodeChar(c) + tail)[|EncodeChar(c)|..] == tail;
  }

  lemma {:induction false} ReadEncoded(value: string, rest: string)
    ensures ReadQuoted(Encode(value) + "\"" + rest) == Some((value, rest))
  {
    if value == "" {
      assert ("\"" + rest)[1..] == rest;
      assert Encode(value) + "\"" + rest == "\"" + rest;
    } else {
      var tail := Encode(value[1..]) + "\"" + rest;
      ReadEncoded(value[1..], rest);
      ReadOneEncoded(value[0], tail);
      assert Encode(value) + "\"" + rest == EncodeChar(value[0]) + tail;
      assert value == [value[0]] + value[1..];
    }
  }

  /** The encoded value holds no line break. */
  lemma {:induction false} EncodedOnOneLine(value: string)
    ensures '\n' !in Encode(value) && '\r' !in Encode(value)
  {
    if value != "" {
      EncodedOnOneLine(value[1..]);
      assert '\n' !in EncodeChar(value[0]) && '\r' !in EncodeChar(value[0]);
    }
  }

  // --- Lines ---

  function EnvLine(key: string, value: string): string {
    key + "=\"" + EscapeValue(value) + "\""
  }

  predicate PlainKey(key: string) {
    key != "" && key[0] != '#' && '=' !in key && '\n' !in key
  }

  function SplitAt(s: string, c: char): Option<(string, string)> {
    if s == "" then None
    else if s[0] == c then Some(("", s[1..]))
    else match SplitAt(s[1..], c)
      case Some((a, b)) => Some(([s[0]] + a, b))
      case None => None
  }

  lemma {:induction false} SplitAtFirst(a: string, c: char, b: string)
    requires c !in a
    ensures SplitAt(a + [c] + b, c) == Some((a, b))
  {
    var s := a + [c] + b;
    if a == "" {
      assert s[1..] == b;
    } else {
      assert s[1..] == a[1..] + [c] + b;
      SplitAtFirst(a[1..], c, b);
      assert a == [a[0]] + a[1..];
    }
  }

  datatype Line = Comment | Pair(key: string, value: string) | Malformed

  function ReadLine(line: string): Line {
    if line != "" && line[0] == '#' then Comment
    else match SplitAt(line, '=')
      case None => Malformed
      case Some((key, rhs)) =>
        if rhs == "" || rhs[0] != '"' then Malformed
        else match ReadQuoted(rhs[1..])
          case Some((v, rest)) => if rest == "" then Pair(key, v) else Malformed
          case None => Malformed
  }

  /** Any value at all survives: quotes, backslashes and line breaks included. */
  lemma ReadWritten(key: string, value: string)
    requires PlainKey(key)
    ensures ReadLine(EnvLine(key, value)) == Pair(key, value)
    ensures '\n' !in EnvLine(key, value)
  {
    EscapeIsEncode(value);
    EncodedOnOneLine(value);
    var rhs := "\"" + EscapeValue(value) + "\"";
    assert EnvLine(key, value) == key + ['='] + rhs;
    SplitAtFirst(key, '=', rhs);
    ReadEncoded(value, "");
    assert rhs[1..] == Encode(value) + "\"" + "";
  }

  // --- The block ---

  datatype Entry = Note(text: string) | Var(key: string, value: string)

  predicate PlainEntry(e: Entry) {
    match e
    case Note(text) => text != "" && text[0] == '#' && '\n' !in text
    case Var(key, _) => PlainKey(key)
  }

  function EntryText(e: Entry): string {
    match e
    case Note(text) => text
    case Var(key, value) => EnvLine(key, value)
  }

  /** The lines joined by line feeds, and one more at the end. */
  function Block(entries: seq<Entry>): string {
    if entries == [] then "" else EntryText(entries[0]) + "\n" + Block(entries[1..])
  }

  function ReadBlock(text: string): seq<Line>
    decreases |text|
  {
    match SplitAt(text, '\n')
    case None => if text == "" then [] else [ReadLine(text)]
    case Some((line, rest)) =>
      SplitShrinks(text, '\n');
      [ReadLine(line)] + ReadBlock(rest)
  }

  lemma {:induction false} SplitShrinks(s: string, c: char)
    ensures SplitAt(s, c).Some? ==> |SplitAt(s, c).value.1| < |s|
  {
    if s != "" && s[0] != c { SplitShrinks(s[1..], c); }
  }

  function LineOf(e: Entry): Line {
    match e
    case Note(_) => Comment
    case Var(key, value) => Pair(key, value)
  }

  function LinesOf(entries: seq<Entry>): seq<Line> {
    if entries == [] then [] else [LineOf(entries[0])] + LinesOf(entries[1..])
  }

  /** Splitting the block by lines recovers every key with its original value, in order. */
  lemma {:induction false} ReadBlockWritten(entries: seq<Entry>)
    requires forall e :: e in entries ==> PlainEntry(e)
    ensures ReadBlock(Block(entries)) == LinesOf(entries)
  {
    if entries != [] {
      var e, rest := entries[0], entries[1..];
      assert PlainEntry(e);
      if e.Var? { ReadWritten(e.key, e.value); }
      SplitAtFirst(EntryText(e), '\n', Block(rest));
      assert Block(entries) == EntryText(e) + ['\n'] + Block(rest);
      ReadBlockWritten(rest);
    }
  }

  datatype Outputs = Outputs(
    databaseUrl: string, redisUrl: string, clickhouseHost: string, httpPort: string,
    user: string, password: string, database: string, nativePort: string)

  /** The lines of `_dotenv_block`; the two notes are any comment lines. */
  function DotenvEntries(o: Outputs, header: string, note: string): seq<Entry> {
    [ Note(header),
      Var("DATABASE_URL", o.databaseUrl),
      Var("REDIS_URL", o.redisUrl),
      Var("CLICKHOUSE_HOST", o.clickhouseHost),
      Var("CLICKHOUSE_PORT", o.httpPort),
      Var("CLICKHOUSE_USER", o.user),
      Var("CLICKHOUSE_PASSWORD", o.password),
      Var("CLICKHOUSE_DATABASE", o.database),
      Note(note),
      Var("CLICKHOUSE_NATIVE_PORT", o.nativePort) ]
  }

  lemma DatabaseKeysPlain()
    ensures PlainKey("DATABASE_URL") && PlainKey("REDIS_URL")
  {
  }

  lemma ClickhouseKeysPlain()
    ensures PlainKey("CLICKHOUSE_HOST") && PlainKey("CLICKHOUSE_PORT") && PlainKey("CLICKHOUSE_USER")
  {
  }

  lemma ClickhouseLongKeysPlain()
    ensures PlainKey("CLICKHOUSE_PASSWORD") && PlainKey("CLICKHOUSE_DATABASE") && PlainKey("CLICKHOUSE_NATIVE_PORT")
  {
  }

  /** Every setting can be read back from the block under its own key, for all values, and nothing else is in it. */
  lemma DotenvBlockReadable(o: Outputs, header: string, note: string)
    requires PlainEntry(Note(header)) && PlainEntry(Note(note))
    ensures ReadBlock(Block(DotenvEntries(o, header, note))) ==
              [ Comment,
                Pair("DATABASE_URL", o.databaseUrl),
                Pair("REDIS_URL", o.redisUrl),
                Pair("CLICKHOUSE_HOST", o.clickhouseHost),
                Pair("CLICKHOUSE_PORT", o.httpPort),
                Pair("CLICKHOUSE_USER", o.user),
                Pair("CLICKHOUSE_PASSWORD", o.password),
                Pair("CLICKHOUSE_DATABASE", o.database),
                Comment,
                Pair("CLICKHOUSE_NATIVE_PORT", o.nativePort) ]
  {
    var entries := DotenvEntries(o, header, note);
    DatabaseKeysPlain();
    ClickhouseKeysPlain();
    ClickhouseLongKeysPlain();
    ReadBlockWritten(entries);
    forall i | 0 <= i < |entries| ensures |LinesOf(entries)| == |entries| && LinesOf(entries)[i] == LineOf(entries[i]) {
      LinesOfAt(entries, i);
    }
  }

  lemma {:induction false} LinesOfAt(entries: seq<Entry>, i: nat)
    requires i < |entries|
    ensures |LinesOf(entries)| == |entries| && LinesOf(entries)[i] == LineOf(entries[i])
  {
    if |entries| > 1 { LinesOfAt(entries[1..], if i > 0 then i - 1 else 0); }
  }
}
