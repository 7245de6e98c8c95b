/** The SQL text that session statements are sent as, and how the server's lexer reads it back. */
module SqlText {
  import opened Basics

  // ----- what the program writes ------------------------------------------------------------

  function QuoteIdentifier(name: string): string { "\"" + Doubled(name, '"') + "\"" }

  /** `escape_sql_literal`: backslashes first, then quotes. */
  function EscapeLiteral(value: string): string { Doubled(Doubled(value, '\\'), '\'') }

  function SetSql(key: string, value: string): string {
    "SET " + QuoteIdentifier(key) + " = '" + EscapeLiteral(value) + "'"
  }

  function ListenSql(channel: string): string { "LISTEN " + QuoteIdentifier(channel) }

  function UnlistenSql(channel: string): string { "UNLISTEN " + QuoteIdentifier(channel) }

  // ----- what the server reads ----------------------------------------------------------------

  /** Quoted text behind its opening quote `q`, in which a doubled quote stands for one: its content and
      what follows the closing quote; None when it is not closed. */
  function ReadQuoted(text: string, q: char): Option<(string, string)>
    decreases |text|
  {
    if text == [] then None
    else if text[0] != q then Prefixed(text[0], ReadQuoted(text[1..], q))
    else if |text| > 1 && text[1] == q then Prefixed(q, ReadQuoted(text[2..], q))
    else Some(([], text[1..]))
  }

  function Prefixed(ch: char, r: Option<(string, string)>): Option<(string, string)> {
    match r
    case None => None
    case Some((content, rest)) => Some(([ch] + content, rest))
  }

  /** A string literal behind its opening quote. With `standard` (standard_conforming_strings on, the
      server's default) a backslash is an ordinary character; otherwise it escapes the next one. Escapes
      other than the doubled backslash are never written by the program and not read here. */
  function ReadLiteral(text: string, standard: bool): Option<(string, string)>
    decreases |text|
  {
    if standard then ReadQuoted(text, '\'')
    else if text == [] then None
    else if text[0] == '\\' then
      if |text| > 1 && text[1] == '\\' then Prefixed('\\', ReadLiteral(text[2..], false)) else None
    else if text[0] != '\'' then Prefixed(text[0], ReadLiteral(text[1..], false))
    else if |text| > 1 && text[1] == '\'' then Prefixed('\'', ReadLiteral(text[2..], false))
    else Some(([], text[1..]))
  }

  /** A whole SET statement: parameter and value. */
  function ReadSet(sql: string, standard: bool): Option<(string, string)> {
    var head, middle := "SET \"", " = '";
    if !(head <= sql) then None
    else
      match ReadQuoted(sql[|head|..], '"')
      case None => None
      case Some((key, rest)) =>
        if !(middle <= rest) then None
        else
          match ReadLiteral(rest[|middle|..], standard)
          case None => None
          case Some((value, end)) => if end == [] then Some((key, value)) else None
  }

  /** A whole LISTEN or UNLISTEN statement of one channel, `verb` being its keyword and a space. */
  function ReadChannel(verb: string, sql: string): Option<string> {
    var head := verb + "\"";
    if !(head <= sql) then None
    else
      match ReadQuoted(sql[|head|..], '"')
      case None => None
      case Some((channel, end)) => if end == [] then Some(channel) else None
  }

  // ----- reading back -------------------------------------------------------------------------

  lemma {:induction false} QuotedReadsBack(s: string, q: char, rest: string)
    requires rest == [] || rest[0] != q
    ensures ReadQuoted(Doubled(s, q) + [q] + rest, q) == Some((s, rest))
  {
    var text := Doubled(s, q) + [q] + rest;
    if s == [] {
      assert text == [q] + rest && text[1..] == rest;
    } else {
      var tail := Doubled(s[1..], q) + [q] + rest;
      QuotedReadsBack(s[1..], q, rest);
      assert [s[0]] + s[1..] == s;
      if s[0] == q {
        assert text == [q, q] + tail && text[2..] == tail;
      } else {
        assert text == [s[0]] + tail && text[1..] == tail;
      }
    }
  }

  lemma {:induction false} EscapedReadsBack(s: string, rest: string)
    requires rest == [] || rest[0] != '\''
    ensures ReadLiteral(EscapeLiteral(s) + ['\''] + rest, false) == Some((s, rest))
  {
    var text := EscapeLiteral(s) + ['\''] + rest;
    if s == [] {
      assert text == ['\''] + rest && text[1..] == rest;
    } else {
      var tail := EscapeLiteral(s[1..]) + ['\''] + rest;
      EscapedReadsBack(s[1..], rest);
      assert [s[0]] + s[1..] == s;
      EscapeSplits(s);
      if s[0] == '\\' {
        assert text == ['\\', '\\'] + tail && text[2..] == tail;
      } else if s[0] == '\'' {
        assert text == ['\'', '\''] + tail && text[2..] == tail;
      } else {
        assert text == [s[0]] + tail && text[1..] == tail;
      }
    }
  }

  lemma EscapeSplits(s: string)
    requires s != []
    ensures EscapeLiteral(s)
         == (if s[0] == '\\' || s[0] == '\'' then [s[0], s[0]] else [s[0]]) + EscapeLiteral(s[1..])
  {
    var inner := Doubled(s[1..], '\\');
    if s[0] == '\\' {
      var both := ['\\', '\\'] + inner;
      assert both[1..] == ['\\'] + inner && both[1..][1..] == inner;
      assert Doubled(both[1..], '\'') == ['\\'] + Doubled(inner, '\'');
      assert ['\\'] + (['\\'] + Doubled(inner, '\'')) == ['\\', '\\'] + Doubled(inner, '\'');
    } else {
      assert ([s[0]] + inner)[1..] == inner;
    }
  }

  lemma {:induction false} DoublingLengthens(s: string, q: char)
    ensures |Doubled(s, q)| >= |s|
    ensures q in s ==> |Doubled(s, q)| > |s|
    ensures q !in s ==> Doubled(s, q) == s
  {
    if s != [] {
      DoublingLengthens(s[1..], q);
      assert s == [s[0]] + s[1..];
    }
  }

  /** What the server stores for a value set by the program. */
  function Stored(value: string, standard: bool): string {
    if standard then Doubled(value, '\\') else value
  }

  lemma StoredIff(value: string, standard: bool)
    ensures Stored(value, standard) == value <==> !standard || '\\' !in value
  {
    DoublingLengthens(value, '\\');
  }

  /** The literal read back: exactly `Stored`, nothing of the value escaping from the quotes. It is the value
      itself if and only if standard_conforming_strings is off or the value holds no backslash. */
  lemma LiteralReadsBackIff(value: string, standard: bool, rest: string)
    requires rest == [] || rest[0] != '\''
    ensures ReadLiteral(EscapeLiteral(value) + ['\''] + rest, standard) == Some((Stored(value, standard), rest))
    ensures ReadLiteral(EscapeLiteral(value) + ['\''] + rest, standard) == Some((value, rest))
            <==> !standard || '\\' !in value
  {
    if standard {
      QuotedReadsBack(Doubled(value, '\\'), '\'', rest);
    } else {
      EscapedReadsBack(value, rest);
    }
    StoredIff(value, standard);
  }

  /** The SET statement as a whole means: store `Stored(value)` under the given name. */
  lemma SetSqlMeans(key: string, value: string, standard: bool)
    ensures ReadSet(SetSql(key, value), standard) == Some((key, Stored(value, standard)))
  {
    var head, middle := "SET \"", " = '";
    var literal := EscapeLiteral(value) + ['\''];
    var rest := middle + literal;
    var sql := SetSql(key, value);
    assert sql == head + (Doubled(key, '"') + ['"'] + rest);
    assert sql[|head|..] == Doubled(key, '"') + ['"'] + rest;
    QuotedReadsBack(key, '"', rest);
    assert rest[|middle|..] == literal + [];
    LiteralReadsBackIff(value, standard, []);
  }

  lemma ChannelSqlMeans(verb: string, channel: string)
    ensures ReadChannel(verb, verb + QuoteIdentifier(channel)) == Some(channel)
  {
    var head := verb + "\"";
    var sql := verb + QuoteIdentifier(channel);
    assert sql == head + (Doubled(channel, '"') + ['"'] + []);
    assert sql[|head|..] == Doubled(channel, '"') + ['"'] + [];
    QuotedReadsBack(channel, '"', []);
  }

  /** LISTEN and UNLISTEN mean the channel given, whatever characters it holds. */
  lemma ListenSqlMeans(channel: string)
    ensures ReadChannel("LISTEN ", ListenSql(channel)) == Some(channel)
    ensures ReadChannel("UNLISTEN ", UnlistenSql(channel)) == Some(channel)
  {
    ChannelSqlMeans("LISTEN ", channel);
    ChannelSqlMeans("UNLISTEN ", channel);
  }
}
