/** `delete_request`: the XML body of a batch delete, and what a server reads back from it. */
module DeleteXml {
  import opened Wrappers
  import opened ObjectKeys

  const DECLARATION := "<?xml version=\"1.0\" encoding=\"UTF-8\"?>"
  const QUIET := "<Delete><Quiet>true</Quiet>"
  const HEADER := DECLARATION + QUIET
  const FOOTER := "</Delete>"
  const OPEN := "<Object><Key>"
  const CLOSE := "</Key></Object>"

  // ---- Writing ----

  function EscapedChar(c: char): string {
    match c
    case '&' => "&amp;"
    case '<' => "&lt;"
    case '>' => "&gt;"
    case '\"' => "&quot;"
    case '\'' => "&apos;"
    case _ => [c]
  }

  function Escaped(key: Key): string { if key == "" then "" else EscapedChar(key[0]) + Escaped(key[1..]) }

  function Objects(keys: seq<Key>): string {
    if keys == [] then "" else Object(keys[0]) + Objects(keys[1..])
  }

  function RequestBody(keys: seq<Key>): string { HEADER + Objects(keys) + FOOTER }

  lemma Assoc(a: string, b: string, c: string)
    ensures a + b + c == a + (b + c)
  {
  }

  lemma Assoc5(a: string, b: string, c: string, d: string, e: string)
    ensures a + b + c + d + e == a + (b + (c + (d + e)))
  {
  }

  lemma {:induction false} EscapedLast(key: Key, c: char)
    ensures Escaped(key + [c]) == Escaped(key) + EscapedChar(c)
  {
    if key == "" {
      assert Escaped([c]) == EscapedChar(c) + Escaped([c][1..]);
    } else {
      EscapedLast(key[1..], c);
      assert (key + [c])[1..] == key[1..] + [c];
      Assoc(EscapedChar(key[0]), Escaped(key[1..]), EscapedChar(c));
    }
  }

  function Object(key: Key): string { OPEN + Escaped(key) + CLOSE }

  lemma {:induction false} ObjectsLast(keys: seq<Key>, key: Key)
    ensures Objects(keys + [key]) == Objects(keys) + Object(key)
  {
    if keys == [] {
      assert Objects([key]) == Object(key) + Objects([key][1..]);
    } else {
      ObjectsLast(keys[1..], key);
      assert (keys + [key])[1..] == keys[1..] + [key];
      Assoc(Object(keys[0]), Objects(keys[1..]), Object(key));
    }
  }

  lemma ObjectWritten(before: string, key: Key)
    ensures before + OPEN + Escaped(key) + CLOSE == before + Object(key)
  {
    Assoc(before, OPEN, Escaped(key));
    Assoc(before, OPEN + Escaped(key), CLOSE);
  }

  lemma ObjectAdded(keys: seq<Key>, i: nat)
    requires i < |keys|
    ensures HEADER + Objects(keys[..i]) + Object(keys[i]) == HEADER + Objects(keys[..i + 1])
  {
    ObjectsLast(keys[..i], keys[i]);
    assert keys[..i + 1] == keys[..i] + [keys[i]];
    Assoc(HEADER, Objects(keys[..i]), Object(keys[i]));
  }

  lemma CharWritten(start: string, key: Key, j: nat)
    requires j < |key|
    ensures start + Escaped(key[..j]) + EscapedChar(key[j]) == start + Escaped(key[..j + 1])
  {
    EscapedLast(key[..j], key[j]);
    assert key[..j + 1] == key[..j] + [key[j]];
    Assoc(start, Escaped(key[..j]), EscapedChar(key[j]));
  }

  /** `delete_request`. */
  method DeleteRequest(keys: seq<Key>) returns (xml: string)
    ensures xml == RequestBody(keys)
  {
    xml := HEADER;
    for i := 0 to |keys|
      invariant xml == HEADER + Objects(keys[..i])
    {
      var key := keys[i];
      ObjectWritten(xml, key);
      xml := xml + OPEN;
      ghost var start := xml;
      for j := 0 to |key|
        invariant xml == start + Escaped(key[..j])
      {
        CharWritten(start, key, j);
        xml := xml + EscapedChar(key[j]);
      }
      assert key[..|key|] == key;
      xml := xml + CLOSE;
      ObjectAdded(keys, i);
    }
    assert keys[..|keys|] == keys;
    xml := xml + FOOTER;
  }

  // ---- Reading: XML 1.0 as far as this document needs it ----

  /** Section 2.2 of XML 1.0. */
  predicate XmlChar(c: char) {
    || c == '\t' || c == '\n' || c == '\r' || 0x20 <= c as int <= 0xD7FF
    || 0xE000 <= c as int <= 0xFFFD || 0x10000 <= c as int
  }

  predicate XmlText(s: string) { forall i :: 0 <= i < |s| ==> XmlChar(s[i]) }

  /** Section 2.11: a parser sees every line end, `\r\n` or a lone `\r`, as `\n`. */
  function LineEnds(s: string): string {
    if s == "" then ""
    else if s[0] == '\r' then
      if |s| > 1 && s[1] == '\n' then "\n" + LineEnds(s[2..]) else "\n" + LineEnds(s[1..])
    else [s[0]] + LineEnds(s[1..])
  }

  /** Section 4.6: the five predefined entities. */
  function Entity(s: string): Option<(char, nat)> {
    if StartsWith(s, "&amp;") then Some(('&', 5))
    else if StartsWith(s, "&lt;") then Some(('<', 4))
    else if StartsWith(s, "&gt;") then Some(('>', 4))
    else if StartsWith(s, "&quot;") then Some(('\"', 6))
    else if StartsWith(s, "&apos;") then Some(('\'', 6))
    else None
  }

  /** Character data up to the next `<`, and the rest from there. */
  function ReadText(s: string): Option<(string, string)> {
    if s == "" then None
    else if s[0] == '<' then Some(("", s))
    else
      var step := if s[0] == '&' then Entity(s) else Some((s[0], 1));
      if step.None? then None else
      var rest := ReadText(s[step.value.1..]);
      if rest.None? then None else Some(([step.value.0] + rest.value.0, rest.value.1))
  }

  lemma {:induction false} ReadTextShrinks(s: string)
    ensures ReadText(s).Some? ==> |ReadText(s).value.1| <= |s|
  {
    if s != "" && s[0] != '<' {
      var step := if s[0] == '&' then Entity(s) else Some((s[0], 1));
      if step.Some? { ReadTextShrinks(s[step.value.1..]); }
    }
  }

  function ParseObjects(s: string): Option<seq<Key>>
    decreases |s|
  {
    if s == FOOTER then Some([])
    else if !StartsWith(s, OPEN) then None
    else
      var text := ReadText(s[|OPEN|..]);
      ReadTextShrinks(s[|OPEN|..]);
      assert |OPEN| == 13;
      if text.None? || !StartsWith(text.value.1, CLOSE) then None else
      var rest := ParseObjects(text.value.1[|CLOSE|..]);
      if rest.None? then None else Some([text.value.0] + rest.value)
  }

  /** The keys a server finds in a request body, or none when it is not well-formed. */
  function ParseDelete(body: string): Option<seq<Key>> {
    var text := LineEnds(body);
    if XmlText(body) && StartsWith(text, HEADER) then ParseObjects(text[|HEADER|..]) else None
  }

  // ---- Escaping is undone ----

  lemma PrefixSplits(p: string, t: string)
    ensures StartsWith(p + t, p) && (p + t)[|p|..] == t
  {
  }

  lemma EntityOf(c: char, rest: string)
    requires EscapedChar(c) != [c]
    ensures Entity(EscapedChar(c) + rest) == Some((c, |EscapedChar(c)|))
  {
    var s := EscapedChar(c) + rest;
    PrefixSplits(EscapedChar(c), rest);
    assert s[1] == EscapedChar(c)[1] && s[2] == EscapedChar(c)[2];
  }

  lemma ReadEscapedChar(c: char, rest: string, text: string, after: string)
    requires ReadText(rest) == Some((text, after))
    ensures ReadText(EscapedChar(c) + rest) == Some(([c] + text, after))
  {
    var s := EscapedChar(c) + rest;
    PrefixSplits(EscapedChar(c), rest);
    if EscapedChar(c) != [c] { EntityOf(c, rest); }
    assert s[0] == EscapedChar(c)[0];
  }

  lemma {:induction false} ReadEscaped(key: Key, rest: string)
    requires rest != "" && rest[0] == '<'
    ensures ReadText(Escaped(key) + rest) == Some((key, rest))
  {
    if key == "" {
      assert Escaped(key) + rest == rest;
    } else {
      ReadEscaped(key[1..], rest);
      ReadEscapedChar(key[0], Escaped(key[1..]) + rest, key[1..], rest);
      Assoc(EscapedChar(key[0]), Escaped(key[1..]), rest);
      assert key == [key[0]] + key[1..];
    }
  }

  lemma ParseStep(text: string, key: Key, rest: string, keys: seq<Key>)
    requires ReadText(text) == Some((key, CLOSE + rest)) && ParseObjects(rest) == Some(keys)
    ensures ParseObjects(OPEN + text) == Some([key] + keys)
  {
    PrefixSplits(OPEN, text);
    PrefixSplits(CLOSE, rest);
    assert (OPEN + text)[1] == OPEN[1] != FOOTER[1];
  }

  lemma {:induction false} ParseWritten(keys: seq<Key>)
    ensures ParseObjects(Objects(keys) + FOOTER) == Some(keys)
  {
    if keys == [] {
      assert Objects(keys) + FOOTER == FOOTER;
    } else {
      var rest := Objects(keys[1..]) + FOOTER;
      ParseWritten(keys[1..]);
      ReadEscaped(keys[0], CLOSE + rest);
      ParseStep(Escaped(keys[0]) + (CLOSE + rest), keys[0], rest, keys[1..]);
      Assoc5(OPEN, Escaped(keys[0]), CLOSE, Objects(keys[1..]), FOOTER);
      assert keys == [keys[0]] + keys[1..];
    }
  }

  // ---- Line ends and characters survive the writing ----

  lemma {:induction false} LineEndsAppend(a: string, b: string)
    requires a == "" || a[|a| - 1] != '\r' || b == "" || b[0] != '\n'
    ensures LineEnds(a + b) == LineEnds(a) + LineEnds(b)
    decreases |a|
  {
    if a == "" {
      assert a + b == b;
    } else {
      var n := if a[0] == '\r' && |a| > 1 && a[1] == '\n' then 2 else 1;
      var first := if a[0] == '\r' then "\n" else [a[0]];
      LineEndsAppend(a[n..], b);
      assert (a + b)[n..] == a[n..] + b;
      assert LineEnds(a + b) == first + LineEnds(a[n..] + b);
      Assoc(first, LineEnds(a[n..]), LineEnds(b));
    }
  }

  lemma {:induction false} LineEndsFixed(s: string)
    ensures '\r' !in LineEnds(s)
    ensures LineEnds(s) == s <==> '\r' !in s
    decreases |s|
  {
    if s != "" {
      var n := if s[0] == '\r' && |s| > 1 && s[1] == '\n' then 2 else 1;
      LineEndsFixed(s[n..]);
      if s[0] != '\r' { assert s == [s[0]] + s[1..]; }
    }
  }

  lemma EscapedCharLineEnds(c: char, rest: string)
    requires c != '\r'
    ensures LineEnds(EscapedChar(c) + rest) == EscapedChar(c) + LineEnds(rest)
  {
    LineEndsFixed(EscapedChar(c));
    LineEndsAppend(EscapedChar(c), rest);
  }

  lemma EscapedStart(key: Key)
    ensures key == "" <==> Escaped(key) == ""
    ensures key != "" ==> (Escaped(key)[0] == '\n' <==> key[0] == '\n')
  {
    if key != "" { assert Escaped(key)[0] == EscapedChar(key[0])[0]; }
  }

  lemma OtherEscaped(key: Key)
    requires key != "" && key[0] != '\r' && LineEnds(Escaped(key[1..])) == Escaped(LineEnds(key[1..]))
    ensures LineEnds(Escaped(key)) == Escaped(LineEnds(key))
  {
    EscapedCharLineEnds(key[0], Escaped(key[1..]));
    assert ([key[0]] + LineEnds(key[1..]))[1..] == LineEnds(key[1..]);
  }

  lemma BrokenEscaped(key: Key, n: nat)
    requires key != "" && key[0] == '\r' && n == (if |key| > 1 && key[1] == '\n' then 2 else 1)
    requires LineEnds(Escaped(key[n..])) == Escaped(LineEnds(key[n..]))
    ensures LineEnds(Escaped(key)) == Escaped(LineEnds(key))
  {
    if n == 1 { ReturnEscaped(key); } else { PairEscaped(key); }
    BrokenEnds(key, n);
    NewlineEscaped(LineEnds(key[n..]));
  }

  lemma BrokenEnds(key: Key, n: nat)
    requires key != "" && key[0] == '\r' && n == (if |key| > 1 && key[1] == '\n' then 2 else 1)
    ensures LineEnds(key) == "\n" + LineEnds(key[n..])
  {
  }

  lemma NewlineEscaped(t: string)
    ensures Escaped("\n" + t) == "\n" + Escaped(t)
  {
    assert ("\n" + t)[1..] == t;
  }

  lemma {:induction false} EscapedLineEnds(key: Key)
    ensures LineEnds(Escaped(key)) == Escaped(LineEnds(key))
    decreases |key|
  {
    if key == "" {
    } else if key[0] != '\r' {
      EscapedLineEnds(key[1..]);
      OtherEscaped(key);
    } else {
      var n := if |key| > 1 && key[1] == '\n' then 2 else 1;
      EscapedLineEnds(key[n..]);
      BrokenEscaped(key, n);
    }
  }

  lemma ReturnAlone(t: string)
    requires t == "" || t[0] != '\n'
    ensures LineEnds("\r" + t) == "\n" + LineEnds(t)
  {
    assert ("\r" + t)[1..] == t;
  }

  lemma ReturnPaired(t: string)
    requires t != "" && t[0] == '\n'
    ensures LineEnds("\r" + t) == "\n" + LineEnds(t[1..])
  {
    assert ("\r" + t)[2..] == t[1..];
  }

  lemma UnescapedFirst(key: Key)
    requires key != "" && EscapedChar(key[0]) == [key[0]]
    ensures Escaped(key) == [key[0]] + Escaped(key[1..]) && Escaped(key)[1..] == Escaped(key[1..])
  {
  }

  lemma EscapedReturn(key: Key)
    requires key != "" && key[0] == '\r'
    ensures Escaped(key) == "\r" + Escaped(key[1..])
  {
    UnescapedFirst(key);
  }

  lemma NoNewlineFirst(key: Key)
    requires key == "" || key[0] != '\n'
    ensures Escaped(key) == "" || Escaped(key)[0] != '\n'
  {
    EscapedStart(key);
  }

  /** A lone carriage return. */
  lemma ReturnEscaped(key: Key)
    requires key != "" && key[0] == '\r' && (|key| == 1 || key[1] != '\n')
    ensures LineEnds(Escaped(key)) == "\n" + LineEnds(Escaped(key[1..]))
  {
    var t := Escaped(key[1..]);
    NoNewlineFirst(key[1..]);
    EscapedReturn(key);
    ReturnAlone(t);
  }

  /** A carriage return with its line feed. */
  lemma PairEscaped(key: Key)
    requires |key| > 1 && key[0] == '\r' && key[1] == '\n'
    ensures LineEnds(Escaped(key)) == "\n" + LineEnds(Escaped(key[2..]))
  {
    var t := Escaped(key[1..]);
    EscapedReturn(key);
    assert t[0] == '\n' && t[1..] == Escaped(key[2..]) by {
      UnescapedFirst(key[1..]);
      assert key[1..][1..] == key[2..];
    }
    ReturnPaired(t);
  }

  function AllLineEnds(keys: seq<Key>): seq<Key> {
    if keys == [] then [] else [LineEnds(keys[0])] + AllLineEnds(keys[1..])
  }

  lemma ObjectLineEnds(key: Key, rest: string)
    ensures LineEnds(Object(key) + rest) == Object(LineEnds(key)) + LineEnds(rest)
  {
    TagsArePlain();
    EscapedLineEnds(key);
    LineEndsAppend(OPEN, Escaped(key));
    LineEndsAppend(OPEN + Escaped(key), CLOSE);
    LineEndsAppend(Object(key), rest);
  }

  lemma {:induction false} ObjectsLineEnds(keys: seq<Key>, rest: string)
    ensures LineEnds(Objects(keys) + rest) == Objects(AllLineEnds(keys)) + LineEnds(rest)
  {
    if keys == [] {
      assert Objects(keys) + rest == rest;
    } else {
      ObjectsLineEnds(keys[1..], rest);
      ObjectLineEnds(keys[0], Objects(keys[1..]) + rest);
      Assoc(Object(keys[0]), Objects(keys[1..]), rest);
      assert AllLineEnds(keys)[1..] == AllLineEnds(keys[1..]);
      Assoc(Object(LineEnds(keys[0])), Objects(AllLineEnds(keys[1..])), LineEnds(rest));
    }
  }

  lemma TextAppend(a: string, b: string)
    ensures XmlText(a + b) <==> XmlText(a) && XmlText(b)
  {
    if XmlText(a + b) {
      forall i | 0 <= i < |a| ensures XmlChar(a[i]) { assert (a + b)[i] == a[i]; }
      forall i | 0 <= i < |b| ensures XmlChar(b[i]) { assert (a + b)[|a| + i] == b[i]; }
    }
  }

  lemma {:induction false} EscapedText(key: Key)
    ensures XmlText(Escaped(key)) <==> XmlText(key)
  {
    if key != "" {
      EscapedText(key[1..]);
      TextAppend(EscapedChar(key[0]), Escaped(key[1..]));
      TextAppend([key[0]], key[1..]);
      assert key == [key[0]] + key[1..];
      assert XmlText(EscapedChar(key[0])) <==> XmlChar(key[0]) by {
        if XmlText(EscapedChar(key[0])) && EscapedChar(key[0]) == [key[0]] { assert XmlChar([key[0]][0]); }
      }
      assert XmlText([key[0]]) <==> XmlChar(key[0]) by {
        if XmlText([key[0]]) { assert XmlChar([key[0]][0]); }
      }
    }
  }

  lemma ObjectText(key: Key)
    ensures XmlText(Object(key)) <==> XmlText(key)
  {
    TagsArePlain();
    EscapedText(key);
    TextAppend(OPEN, Escaped(key));
    TextAppend(OPEN + Escaped(key), CLOSE);
  }

  lemma {:induction false} ObjectsText(keys: seq<Key>)
    ensures XmlText(Objects(keys)) <==> forall k <- keys :: XmlText(k)
  {
    if keys != [] {
      ObjectsText(keys[1..]);
      ObjectText(keys[0]);
      TextAppend(Object(keys[0]), Objects(keys[1..]));
      assert forall k :: k in keys <==> k == keys[0] || k in keys[1..];
    }
  }

  // ---- The main results ----

  predicate Plain(s: string) { forall i :: 0 <= i < |s| ==> XmlChar(s[i]) && s[i] != '\r' }

  lemma PlainIsFixed(s: string)
    requires Plain(s)
    ensures XmlText(s) && LineEnds(s) == s
  {
    LineEndsFixed(s);
  }

  lemma HeaderIsPlain()
    ensures XmlText(HEADER) && LineEnds(HEADER) == HEADER
  {
    DeclarationIsPlain();
    QuietIsPlain();
    TextAppend(DECLARATION, QUIET);
    LineEndsAppend(DECLARATION, QUIET);
  }

  lemma DeclarationIsPlain()
    ensures XmlText(DECLARATION) && LineEnds(DECLARATION) == DECLARATION
  {
    assert Plain(DECLARATION);
    PlainIsFixed(DECLARATION);
  }

  lemma QuietIsPlain()
    ensures XmlText(QUIET) && LineEnds(QUIET) == QUIET
  {
    assert Plain(QUIET);
    PlainIsFixed(QUIET);
  }

  lemma FooterIsPlain()
    ensures XmlText(FOOTER) && LineEnds(FOOTER) == FOOTER
  {
    assert Plain(FOOTER);
    PlainIsFixed(FOOTER);
  }

  lemma TagsArePlain()
    ensures XmlText(OPEN) && LineEnds(OPEN) == OPEN && XmlText(CLOSE) && LineEnds(CLOSE) == CLOSE
  {
    assert Plain(OPEN) && Plain(CLOSE);
    PlainIsFixed(OPEN);
    PlainIsFixed(CLOSE);
  }

  lemma BodyText(keys: seq<Key>)
    ensures XmlText(RequestBody(keys)) <==> forall k <- keys :: XmlText(k)
  {
    HeaderIsPlain();
    FooterIsPlain();
    ObjectsText(keys);
    TextAppend(HEADER, Objects(keys));
    TextAppend(HEADER + Objects(keys), FOOTER);
  }

  lemma BodyLineEnds(keys: seq<Key>)
    ensures LineEnds(RequestBody(keys)) == RequestBody(AllLineEnds(keys))
  {
    HeaderIsPlain();
    FooterIsPlain();
    Assoc(HEADER, Objects(keys), FOOTER);
    LineEndsAppend(HEADER, Objects(keys) + FOOTER);
    ObjectsLineEnds(keys, FOOTER);
    Assoc(HEADER, Objects(AllLineEnds(keys)), FOOTER);
  }

  lemma BodyParses(keys: seq<Key>)
    ensures StartsWith(RequestBody(keys), HEADER) && ParseObjects(RequestBody(keys)[|HEADER|..]) == Some(keys)
  {
    Assoc(HEADER, Objects(keys), FOOTER);
    PrefixSplits(HEADER, Objects(keys) + FOOTER);
    ParseWritten(keys);
  }

  /** The body in full, for no keys, for one key more, and character by character. */
  lemma BodyInFull(keys: seq<Key>, key: Key, c: char)
    ensures RequestBody([]) ==
      "<?xml version=\"1.0\" encoding=\"UTF-8\"?>" + "<Delete><Quiet>true</Quiet>" + "</Delete>"
    ensures exists front ::
      && RequestBody(keys) == front + "</Delete>"
      && RequestBody(keys + [key]) == front + ("<Object><Key>" + Escaped(key) + "</Key></Object>") + "</Delete>"
    ensures Escaped("") == "" && Escaped(key + [c]) == Escaped(key) + (
      if c == '&' then "&amp;" else if c == '<' then "&lt;" else if c == '>' then "&gt;"
      else if c == '\"' then "&quot;" else if c == '\'' then "&apos;" else [c])
  {
    var front := HEADER + Objects(keys);
    ObjectsLast(keys, key);
    Assoc(HEADER, Objects(keys), Object(key));
    assert RequestBody(keys + [key]) == front + Object(key) + "</Delete>";
    EscapedLast(key, c);
    assert HEADER + Objects([]) == HEADER;
  }

  /** What the server reads: nothing when some character is outside XML, and otherwise every key, in
      order, with its line ends turned into `\n`. */
  lemma DeleteReadsBack(keys: seq<Key>)
    ensures ParseDelete(RequestBody(keys)) ==
      if forall k <- keys :: XmlText(k) then Some(AllLineEnds(keys)) else None
  {
    BodyText(keys);
    BodyLineEnds(keys);
    BodyParses(AllLineEnds(keys));
  }

  /** A key that the request carries faithfully. */
  predicate Readable(key: Key) { XmlText(key) && '\r' !in key }

  lemma {:induction false} AllLineEndsFixed(keys: seq<Key>)
    ensures AllLineEnds(keys) == keys <==> forall k <- keys :: '\r' !in k
  {
    if keys != [] {
      AllLineEndsFixed(keys[1..]);
      LineEndsFixed(keys[0]);
      assert keys == [keys[0]] + keys[1..];
      assert AllLineEnds(keys)[1..] == AllLineEnds(keys[1..]);
      assert forall k :: k in keys <==> k == keys[0] || k in keys[1..];
    }
  }

  /** Unescaping undoes escaping for a batch exactly when every key in it is XML text without a
      carriage return. */
  lemma DeleteRoundTrip(keys: seq<Key>)
    ensures ParseDelete(RequestBody(keys)) == Some(keys) <==> forall k <- keys :: Readable(k)
  {
    DeleteReadsBack(keys);
    AllLineEndsFixed(keys);
  }

  lemma OneKey(key: Key)
    ensures AllLineEnds([key]) == [LineEnds(key)]
  {
    assert |[key][1..]| == 0;
  }

  lemma ReturnBecomesNewline(a: string, b: string)
    requires '\r' !in a && '\r' !in b && (b == "" || b[0] != '\n')
    ensures LineEnds(a + "\r" + b) == a + "\n" + b
  {
    ReturnAlone(b);
    LineEndsFixed(a);
    LineEndsFixed(b);
    LineEndsAppend(a, "\r" + b);
    Assoc(a, "\r", b);
    Assoc(a, "\n", b);
  }

  /** A key with a carriage return is read as another key: `a\rb` as `a\nb`. */
  lemma CarriageReturnIsLost(a: string, b: string)
    requires Readable(a) && Readable(b) && (b == "" || b[0] != '\n')
    ensures ParseDelete(RequestBody([a + "\r" + b])) == Some([a + "\n" + b])
  {
    var key := a + "\r" + b;
    ReturnBecomesNewline(a, b);
    TextAppend(a, "\r");
    TextAppend(a + "\r", b);
    assert XmlText("\r");
    DeleteReadsBack([key]);
    OneKey(key);
  }
}
