/** The JSON-repair normaliser applied to each raw cell of the machine log.

    A cell is normalised in four steps and then parsed: a pair of enclosing
    quotes is removed, every doubled quote `""` becomes a single one, and two
    regular-expression rewrites re-quote object keys. Any parse failure, or any
    other exception, yields an empty object. The two rewrites and the JSON
    parser are library code; they are parameters here. */
module DataParsing {

  /** A parsed JSON document. */
  datatype Json =
    | JNull
    | JBool(b: bool)
    | JNumber(n: real)
    | JString(s: string)
    | JArray(items: seq<Json>)
    | JObject(members: map<string, Json>)

  /** What the JSON parser does with a text: a value, a decode error, or some
      other exception. */
  datatype ParseOutcome = Parsed(value: Json) | DecodeError | OtherError

  /** A regular-expression rewrite from text to text. */
  type Rewrite = string -> string

  /** What holds of both key-quoting rewrites of the normaliser: each pattern
      needs a quote to match and each replacement is no longer than the text it
      replaces, so the rewrite never lengthens a text and leaves text without
      quotes alone. */
  ghost predicate KeyQuoting(f: Rewrite)
  {
    forall s :: |f(s)| <= |s| && ('"' !in s ==> f(s) == s)
  }

  /** The text starts and ends with a quote (a lone quote does both). */
  predicate Enclosed(s: string)
  {
    |s| >= 1 && s[0] == '"' && s[|s| - 1] == '"'
  }

  /** Removes one pair of enclosing quotes, if there is one. */
  function StripOuterQuotes(s: string): (r: string)
    ensures |r| <= |s|
    ensures Enclosed(s) && |s| >= 2 ==> s == ['"'] + r + ['"']
    ensures Enclosed(s) && |s| == 1 ==> r == []
    ensures !Enclosed(s) ==> r == s
  {
    if Enclosed(s) then (if |s| >= 2 then s[1..|s| - 1] else []) else s
  }

  /** Stripping undoes wrapping a text in quotes, whatever the text. */
  lemma StripUndoesWrap(t: string)
    ensures StripOuterQuotes(['"'] + t + ['"']) == t
  {
    var s := ['"'] + t + ['"'];
    assert s[1..|s| - 1] == t;
  }

  /** Replaces each `""` by `"`, scanning left to right without overlaps. */
  function CollapseDoubledQuotes(s: string): (r: string)
    ensures |r| <= |s|
  {
    if |s| >= 2 && s[0] == '"' && s[1] == '"' then ['"'] + CollapseDoubledQuotes(s[2..])
    else if s == [] then []
    else [s[0]] + CollapseDoubledQuotes(s[1..])
  }

  /** Text without quotes is left as it is. */
  lemma {:induction false} CollapseQuoteFree(s: string)
    requires '"' !in s
    ensures CollapseDoubledQuotes(s) == s
  {
    if s != [] {
      assert s[0] != '"';
      assert '"' !in s[1..];
      CollapseQuoteFree(s[1..]);
      assert s == [s[0]] + s[1..];
    }
  }

  /** A run of k quotes. */
  function Quotes(k: nat): (q: string)
    ensures |q| == k
  {
    if k == 0 then [] else ['"'] + Quotes(k - 1)
  }

  /** A maximal run of k quotes collapses to ceil(k / 2) quotes; the text after
      the run is collapsed on its own. */
  lemma {:induction false} CollapseRun(k: nat, rest: string)
    requires rest == [] || rest[0] != '"'
    ensures CollapseDoubledQuotes(Quotes(k) + rest) == Quotes((k + 1) / 2) + CollapseDoubledQuotes(rest)
  {
    if k == 0 {
      assert Quotes(0) + rest == rest;
    } else if k == 1 {
      assert Quotes(1) == ['"'];
      CollapseLoneQuote(rest);
    } else {
      var tail := Quotes(k - 2) + rest;
      calc {
        CollapseDoubledQuotes(Quotes(k) + rest);
        { QuotesSplit(k); assert Quotes(k) + rest == ['"', '"'] + tail; }
        CollapseDoubledQuotes(['"', '"'] + tail);
        { CollapsePair(tail); }
        ['"'] + CollapseDoubledQuotes(tail);
        { CollapseRun(k - 2, rest); }
        ['"'] + (Quotes((k - 1) / 2) + CollapseDoubledQuotes(rest));
        { QuotesCons((k - 1) / 2); assert (k + 1) / 2 == (k - 1) / 2 + 1; }
        Quotes((k + 1) / 2) + CollapseDoubledQuotes(rest);
      }
    }
  }

  lemma QuotesCons(j: nat)
    ensures Quotes(j + 1) == ['"'] + Quotes(j)
  {
  }

  /** A quote not followed by another stays a single quote. */
  lemma CollapseLoneQuote(rest: string)
    requires rest == [] || rest[0] != '"'
    ensures CollapseDoubledQuotes(['"'] + rest) == ['"'] + CollapseDoubledQuotes(rest)
  {
    assert (['"'] + rest)[1..] == rest;
  }

  lemma QuotesSplit(k: nat)
    requires k >= 2
    ensures Quotes(k) == ['"', '"'] + Quotes(k - 2)
  {
    assert Quotes(k) == ['"'] + Quotes(k - 1);
    assert Quotes(k - 1) == ['"'] + Quotes(k - 2);
  }

  /** A doubled quote at the front becomes one quote. */
  lemma CollapsePair(rest: string)
    ensures CollapseDoubledQuotes(['"', '"'] + rest) == ['"'] + CollapseDoubledQuotes(rest)
  {
    assert (['"', '"'] + rest)[2..] == rest;
  }

  /** Any other character passes through unchanged. */
  lemma CollapseOther(c: char, rest: string)
    requires c != '"'
    ensures CollapseDoubledQuotes([c] + rest) == [c] + CollapseDoubledQuotes(rest)
  {
    assert ([c] + rest)[1..] == rest;
  }

  /** The text with its quotes taken out. */
  function Unquoted(s: string): (u: string)
    ensures '"' !in u
  {
    if s == [] then [] else (if s[0] == '"' then [] else [s[0]]) + Unquoted(s[1..])
  }

  /** Collapsing touches only quotes: every other character survives, in order. */
  lemma {:induction false} CollapseKeepsOtherCharacters(s: string)
    ensures Unquoted(CollapseDoubledQuotes(s)) == Unquoted(s)
  {
    if |s| >= 2 && s[0] == '"' && s[1] == '"' {
      CollapseKeepsOtherCharacters(s[2..]);
      var r := CollapseDoubledQuotes(s[2..]);
      assert (['"'] + r)[1..] == r;
      assert s[1..][1..] == s[2..];
    } else if s != [] {
      CollapseKeepsOtherCharacters(s[1..]);
      var r := CollapseDoubledQuotes(s[1..]);
      assert ([s[0]] + r)[1..] == r;
    }
  }

  /** CSV-style escaping: every quote doubled. */
  function DoubleQuotes(t: string): (d: string)
    ensures |d| >= |t|
  {
    if t == [] then [] else (if t[0] == '"' then ['"', '"'] else [t[0]]) + DoubleQuotes(t[1..])
  }

  /** Collapsing undoes doubling. */
  lemma {:induction false} CollapseUndoesDoubling(t: string)
    ensures CollapseDoubledQuotes(DoubleQuotes(t)) == t
  {
    if t != [] {
      CollapseUndoesDoubling(t[1..]);
      var d := DoubleQuotes(t[1..]);
      if t[0] == '"' {
        assert DoubleQuotes(t) == ['"', '"'] + d;
        CollapsePair(d);
      } else {
        assert DoubleQuotes(t) == [t[0]] + d;
        CollapseOther(t[0], d);
      }
    }
  }

  /** A cell quoted the CSV way, enclosed in quotes with its quotes doubled, is
      restored exactly by the strip and collapse steps. */
  lemma StripAndCollapseUndoCsvQuoting(t: string)
    ensures CollapseDoubledQuotes(StripOuterQuotes(['"'] + DoubleQuotes(t) + ['"'])) == t
  {
    StripUndoesWrap(DoubleQuotes(t));
    CollapseUndoesDoubling(t);
  }

  /** The text handed to the parser. The quote steps never touch a cell
      without quotes, so only the key rewrites apply to it. */
  function Normalise(raw: string, escapedKeys: Rewrite, quotedKeys: Rewrite): (t: string)
    ensures '"' !in raw ==> t == quotedKeys(escapedKeys(raw))
  {
    var collapsed := CollapseDoubledQuotes(StripOuterQuotes(raw));
    assert '"' !in raw ==> collapsed == raw by {
      if '"' !in raw {
        assert !Enclosed(raw);
        CollapseQuoteFree(raw);
      }
    }
    quotedKeys(escapedKeys(collapsed))
  }

  /** Normalising never lengthens a cell, and a cell without quotes reaches the
      parser unchanged. */
  lemma NormaliseShortensOrKeeps(raw: string, escapedKeys: Rewrite, quotedKeys: Rewrite)
    requires KeyQuoting(escapedKeys) && KeyQuoting(quotedKeys)
    ensures |Normalise(raw, escapedKeys, quotedKeys)| <= |raw|
    ensures '"' !in raw ==> Normalise(raw, escapedKeys, quotedKeys) == raw
  {
    var collapsed := CollapseDoubledQuotes(StripOuterQuotes(raw));
    var unescaped := escapedKeys(collapsed);
    assert |unescaped| <= |collapsed|;
    var requoted := quotedKeys(unescaped);
    assert |requoted| <= |unescaped|;
    if '"' !in raw {
      assert escapedKeys(raw) == raw;
      assert quotedKeys(raw) == raw;
    }
  }

  /** The normaliser: the parsed value, or an empty object on any failure. */
  function FixAndParseJson(raw: string, escapedKeys: Rewrite, quotedKeys: Rewrite,
                           parse: string -> ParseOutcome): (r: Json)
    ensures parse(Normalise(raw, escapedKeys, quotedKeys)).Parsed? ==>
      r == parse(Normalise(raw, escapedKeys, quotedKeys)).value
    ensures !parse(Normalise(raw, escapedKeys, quotedKeys)).Parsed? ==> r == JObject(map[])
  {
    var outcome := parse(Normalise(raw, escapedKeys, quotedKeys));
    if outcome.Parsed? then outcome.value else JObject(map[])
  }

  /** A cell without quotes reaches the parser untouched, so its result is the
      parser's own verdict on the raw text. */
  lemma QuoteFreeCellParsedAsIs(raw: string, escapedKeys: Rewrite, quotedKeys: Rewrite,
                                parse: string -> ParseOutcome)
    requires KeyQuoting(escapedKeys) && KeyQuoting(quotedKeys)
    requires '"' !in raw
    ensures parse(raw).Parsed? ==> FixAndParseJson(raw, escapedKeys, quotedKeys, parse) == parse(raw).value
    ensures !parse(raw).Parsed? ==> FixAndParseJson(raw, escapedKeys, quotedKeys, parse) == JObject(map[])
  {
    NormaliseShortensOrKeeps(raw, escapedKeys, quotedKeys);
  }

  /** A CSV-quoted cell whose body has no key to re-quote is parsed as its body:
      with rewrites that leave the body alone, the parser sees exactly `t`, and
      the result is its value or, on any parse failure, the empty object. */
  lemma CsvQuotedCellParsedAsBody(t: string, escapedKeys: Rewrite, quotedKeys: Rewrite,
                                  parse: string -> ParseOutcome)
    requires escapedKeys(t) == t && quotedKeys(t) == t
    ensures FixAndParseJson(['"'] + DoubleQuotes(t) + ['"'], escapedKeys, quotedKeys, parse)
         == if parse(t).Parsed? then parse(t).value else JObject(map[])
  {
    StripAndCollapseUndoCsvQuoting(t);
  }
}
