/**
 * The part of `JSON.stringify` and `JSON.parse` the client stores with: a
 * string becomes a quoted literal with the escapes of section 25.5.2.3
 * (QuoteJSONString) of ECMA-262, a list of strings becomes a compact array
 * of such literals. Each encoder is paired with the decoder that reads the
 * same text back.
 */
module Json {
  import opened Wrappers

  /** Concatenation regroups freely; stated once so that proofs can name each step. */
  lemma Associative(a: string, b: string, c: string)
    ensures (a + b) + c == a + (b + c)
  {
  }

  /** The lower-case hexadecimal digit for `n`. */
  function HexDigit(n: int): (c: char)
    requires 0 <= n < 16
    ensures HexValue(c) == Some(n)
  {
    if n < 10 then ('0' as int + n) as char else ('a' as int + n - 10) as char
  }

  /** The value of one hexadecimal digit of either case. */
  function HexValue(c: char): (r: Option<int>)
    ensures r.Some? ==> 0 <= r.value < 16
  {
    if '0' <= c <= '9' then Some(c as int - '0' as int)
    else if 'a' <= c <= 'f' then Some(c as int - 'a' as int + 10)
    else if 'A' <= c <= 'F' then Some(c as int - 'A' as int + 10)
    else None
  }

  /** How one character of a string is written inside a JSON string literal. */
  function Escape(c: char): (r: string)
    ensures 1 <= |r| <= 6
    ensures r[0] != '"'
    ensures r[0] == '\\' <==> (c == '"' || c == '\\' || c < ' ')
    ensures r[0] != '\\' ==> r == [c]
  {
    if c == '"' then "\\\""
    else if c == '\\' then "\\\\"
    else if c == '\U{8}' then "\\b"
    else if c == '\t' then "\\t"
    else if c == '\n' then "\\n"
    else if c == '\U{C}' then "\\f"
    else if c == '\r' then "\\r"
    else if c < ' ' then "\\u00" + [HexDigit(c as int / 16), HexDigit(c as int % 16)]
    else [c]
  }

  /** The characters of `s`, each escaped. */
  function EscapeAll(s: string): (r: string)
    ensures |r| >= |s|
  {
    if s == [] then [] else Escape(s[0]) + EscapeAll(s[1..])
  }

  /** `JSON.stringify(s)` for a string `s`. */
  function Quote(s: string): (r: string)
    ensures |r| >= |s| + 2 && r[0] == '"' && r[|r| - 1] == '"'
  {
    "\"" + EscapeAll(s) + "\""
  }

  /** The value of the four hexadecimal digits of a `\u` escape, if they are digits. */
  function HexQuad(t: string): (r: Option<int>)
    requires |t| == 4
    ensures r.Some? ==> 0 <= r.value < 0x10000
  {
    match (HexValue(t[0]), HexValue(t[1]), HexValue(t[2]), HexValue(t[3]))
    case (Some(a), Some(b), Some(c), Some(d)) => Some(((a * 16 + b) * 16 + c) * 16 + d)
    case _ => None
  }

  /** The character an escape sequence `\x` names, for the one-letter escapes. */
  function ShortEscape(x: char): Option<char> {
    match x
    case '"' => Some('"')
    case '\\' => Some('\\')
    case '/' => Some('/')
    case 'b' => Some('\U{8}')
    case 't' => Some('\t')
    case 'n' => Some('\n')
    case 'f' => Some('\U{C}')
    case 'r' => Some('\r')
    case _ => None
  }

  /**
   * Reads one character of a string literal's body from the front of `t`
   * (not its closing quote): a plain character, or an escape sequence.
   */
  function ReadChar(t: string): (r: Option<(char, string)>)
    ensures r.Some? ==> |r.value.1| < |t|
  {
    if t == [] || t[0] == '"' || t[0] < ' ' then None
    else if t[0] != '\\' then Some((t[0], t[1..]))
    else if |t| < 2 then None
    else if t[1] != 'u' then
      match ShortEscape(t[1])
      case None => None
      case Some(c) => Some((c, t[2..]))
    else if |t| < 6 then None
    else match HexQuad(t[2..6])
      case None => None
      case Some(n) =>
        // a lone surrogate cannot be a character here
        if 0xD800 <= n < 0xE000 then None else Some((n as char, t[6..]))
  }

  /** Reads a string literal's body up to and including its closing quote. */
  function ReadBody(t: string): (r: Option<(string, string)>)
    ensures r.Some? ==> |r.value.1| < |t|
    decreases |t|
  {
    if t == [] then None
    else if t[0] == '"' then Some(([], t[1..]))
    else match ReadChar(t)
      case None => None
      case Some((c, more)) =>
        match ReadBody(more)
        case None => None
        case Some((s, rest)) => Some(([c] + s, rest))
  }

  /** Reads a JSON string literal from the front of `t`; returns the string and the text after it. */
  function ReadString(t: string): (r: Option<(string, string)>)
    ensures r.Some? ==> |r.value.1| < |t|
  {
    if t == [] || t[0] != '"' then None else ReadBody(t[1..])
  }

  /** The reader takes back exactly the one character an escape wrote. */
  lemma ReadEscape(c: char, rest: string)
    ensures ReadChar(Escape(c) + rest) == Some((c, rest))
  {
    var t := Escape(c) + rest;
    if c < ' ' && c != '\U{8}' && c != '\t' && c != '\n' && c != '\U{C}' && c != '\r' {
      var hi, lo := c as int / 16, c as int % 16;
      assert t[2..6] == ['0', '0', HexDigit(hi), HexDigit(lo)];
      assert t[6..] == rest;
    } else {
      assert t[|Escape(c)|..] == rest;
    }
  }

  /** After an escaped character, the body reader goes on with what follows it. */
  lemma ReadBodyAfter(c: char, more: string, s: string, rest: string)
    requires ReadBody(more) == Some((s, rest))
    ensures ReadBody(Escape(c) + more) == Some(([c] + s, rest))
  {
    ReadEscape(c, more);
  }

  /** Reading an escaped body and its closing quote gives back the string and the rest. */
  lemma {:induction false} ReadEscapedBody(s: string, rest: string)
    ensures ReadBody(EscapeAll(s) + "\"" + rest) == Some((s, rest))
  {
    if s != [] {
      var e := EscapeAll(s[1..]);
      var more := e + "\"" + rest;
      ReadEscapedBody(s[1..], rest);
      Associative(Escape(s[0]) + e, "\"", rest);
      Associative(Escape(s[0]), e, "\"" + rest);
      Associative(e, "\"", rest);
      ReadBodyAfter(s[0], more, s[1..], rest);
      assert [s[0]] + s[1..] == s;
    }
  }

  /** `JSON.parse(JSON.stringify(s)) === s`, with any text after the literal left alone. */
  lemma ReadQuote(s: string, rest: string)
    ensures ReadString(Quote(s) + rest) == Some((s, rest))
  {
    assert (Quote(s) + rest)[1..] == EscapeAll(s) + "\"" + rest;
    ReadEscapedBody(s, rest);
  }

  /** The elements of a list, each quoted, separated by commas. */
  function Elements(xs: seq<string>): string {
    if xs == [] then []
    else if |xs| == 1 then Quote(xs[0])
    else Quote(xs[0]) + "," + Elements(xs[1..])
  }

  /** `JSON.stringify(xs)` for an array of strings. */
  function EncodeList(xs: seq<string>): (r: string)
    ensures |r| >= 2 && r[0] == '[' && r[|r| - 1] == ']'
  {
    "[" + Elements(xs) + "]"
  }

  /** Reads the elements of an array after its first element's start, up to and including `]`. */
  function ReadElements(t: string): (r: Option<(seq<string>, string)>)
    decreases |t|
  {
    var first := ReadString(t);
    if first.None? then None
    else
      var x, after := first.value.0, first.value.1;
      if after == [] then None
      else if after[0] == ']' then Some(([x], after[1..]))
      else if after[0] != ',' then None
      else
        var others := ReadElements(after[1..]);
        if others.None? then None else Some(([x] + others.value.0, others.value.1))
  }

  /**
   * `JSON.parse(t)` where the text is a compact array of strings; any other
   * text counts as a parse failure.
   */
  function DecodeList(t: string): (r: Option<seq<string>>)
    ensures r.Some? ==> |t| >= 2 && t[0] == '['
    ensures t == "[]" ==> r == Some([])
  {
    if |t| < 2 || t[0] != '[' then None
    else if t[1] == ']' then (if |t| == 2 then Some([]) else None)
    else match ReadElements(t[1..])
      case Some((xs, rest)) => if rest == [] then Some(xs) else None
      case None => None
  }

  /** A last element, then `]`: the reader stops after the bracket. */
  lemma ReadLastElement(x: string, rest: string)
    ensures ReadElements(Quote(x) + ("]" + rest)) == Some(([x], rest))
  {
    ReadQuote(x, "]" + rest);
    var first := ReadString(Quote(x) + ("]" + rest));
    assert first.value.1 == "]" + rest;
  }

  /** An element, then a comma: the reader goes on with the elements after the comma. */
  lemma ReadNextElement(x: string, tail: string)
    requires ReadElements(tail).Some?
    ensures ReadElements(Quote(x) + ([','] + tail)) == Some(([x] + ReadElements(tail).value.0, ReadElements(tail).value.1))
  {
    ReadQuote(x, [','] + tail);
    assert ([','] + tail)[1..] == tail;
  }

  /** The encoded elements, closed and followed by `rest`, start with the first element's literal. */
  lemma ElementsUnfold(xs: seq<string>, rest: string)
    requires xs != []
    ensures |xs| == 1 ==> Elements(xs) + "]" + rest == Quote(xs[0]) + ("]" + rest)
    ensures |xs| > 1 ==> Elements(xs) + "]" + rest == Quote(xs[0]) + ([','] + (Elements(xs[1..]) + "]" + rest))
  {
    var q := Quote(xs[0]);
    if |xs| == 1 {
      Associative(q, "]", rest);
    } else {
      var e := Elements(xs[1..]);
      assert Elements(xs) == q + [','] + e;
      Associative(q + [','] + e, "]", rest);
      Associative(q + [','], e, "]" + rest);
      Associative(q, [','], e + ("]" + rest));
      Associative(e, "]", rest);
    }
  }

  /** The encoded elements of a non-empty list, then `]`, read back as that list. */
  lemma {:induction false} ReadEncodedElements(xs: seq<string>, rest: string)
    requires xs != []
    ensures ReadElements(Elements(xs) + "]" + rest) == Some((xs, rest))
    decreases |xs|
  {
    ElementsUnfold(xs, rest);
    if |xs| == 1 {
      ReadLastElement(xs[0], rest);
      assert [xs[0]] == xs;
    } else {
      ReadEncodedElements(xs[1..], rest);
      ReadNextElement(xs[0], Elements(xs[1..]) + "]" + rest);
      assert [xs[0]] + xs[1..] == xs;
    }
  }

  /** `JSON.parse(JSON.stringify(xs))` gives back the list of strings `xs`. */
  lemma DecodeEncodeList(xs: seq<string>)
    ensures DecodeList(EncodeList(xs)) == Some(xs)
  {
    var t := EncodeList(xs);
    if xs != [] {
      var e := Elements(xs);
      Associative("[", e, "]");
      assert t[1..] == e + "]" + [];
      ReadEncodedElements(xs, []);
      assert t[1] == e[0] == '"';
    }
  }

  /** One member of an object whose values are all strings: `"key":"value"`. */
  function Member(key: string, value: string): string {
    Quote(key) + ":" + Quote(value)
  }

  /** The members of an object, separated by commas. */
  function Members(fields: seq<(string, string)>): string {
    if fields == [] then []
    else if |fields| == 1 then Member(fields[0].0, fields[0].1)
    else Member(fields[0].0, fields[0].1) + "," + Members(fields[1..])
  }

  /** `JSON.stringify` of an object whose values are all strings, keys in insertion order. */
  function EncodeObject(fields: seq<(string, string)>): (r: string)
    ensures |r| >= 2 && r[0] == '{' && r[|r| - 1] == '}'
  {
    "{" + Members(fields) + "}"
  }

  /** Reads one `"key":"value"` member from the front of `t`. */
  function ReadMember(t: string): (r: Option<((string, string), string)>)
    ensures r.Some? ==> |r.value.1| < |t|
  {
    var key := ReadString(t);
    if key.None? then None
    else
      var after := key.value.1;
      if after == [] || after[0] != ':' then None
      else
        var value := ReadString(after[1..]);
        if value.None? then None else Some(((key.value.0, value.value.0), value.value.1))
  }

  /** Reads the members of an object after its opening brace, up to and including `}`. */
  function ReadMembers(t: string): Option<(seq<(string, string)>, string)>
    decreases |t|
  {
    var first := ReadMember(t);
    if first.None? then None
    else
      var field, after := first.value.0, first.value.1;
      if after == [] then None
      else if after[0] == '}' then Some(([field], after[1..]))
      else if after[0] != ',' then None
      else
        var others := ReadMembers(after[1..]);
        if others.None? then None else Some(([field] + others.value.0, others.value.1))
  }

  /**
   * `JSON.parse(t)` where the text is a compact object whose values are all
   * strings, as its list of members; any other text counts as a failure.
   */
  function DecodeObject(t: string): Option<seq<(string, string)>> {
    if |t| < 2 || t[0] != '{' then None
    else if t[1] == '}' then (if |t| == 2 then Some([]) else None)
    else
      var read := ReadMembers(t[1..]);
      if read.Some? && read.value.1 == [] then Some(read.value.0) else None
  }

  /** A member reads back as its key and value, leaving what follows. */
  lemma ReadEncodedMember(key: string, value: string, rest: string)
    ensures ReadMember(Member(key, value) + rest) == Some(((key, value), rest))
  {
    var after := [':'] + (Quote(value) + rest);
    Associative(Quote(key) + ":", Quote(value), rest);
    Associative(Quote(key), ":", Quote(value) + rest);
    ReadQuote(key, after);
    assert after[1..] == Quote(value) + rest;
    ReadQuote(value, rest);
  }

  /** A last member, then `}`: the reader stops after the brace. */
  lemma ReadLastMember(key: string, value: string, rest: string)
    ensures ReadMembers(Member(key, value) + ("}" + rest)) == Some(([(key, value)], rest))
  {
    ReadEncodedMember(key, value, "}" + rest);
  }

  /** A member, then a comma: the reader goes on with the members after the comma. */
  lemma ReadNextMember(key: string, value: string, tail: string)
    requires ReadMembers(tail).Some?
    ensures ReadMembers(Member(key, value) + ([','] + tail)) ==
      Some(([(key, value)] + ReadMembers(tail).value.0, ReadMembers(tail).value.1))
  {
    ReadEncodedMember(key, value, [','] + tail);
    assert ([','] + tail)[1..] == tail;
  }

  /** The encoded members, closed and followed by `rest`, start with the first member. */
  lemma MembersUnfold(fields: seq<(string, string)>, rest: string)
    requires fields != []
    ensures |fields| == 1 ==> Members(fields) + "}" + rest == Member(fields[0].0, fields[0].1) + ("}" + rest)
    ensures |fields| > 1 ==>
      Members(fields) + "}" + rest == Member(fields[0].0, fields[0].1) + ([','] + (Members(fields[1..]) + "}" + rest))
  {
    var m := Member(fields[0].0, fields[0].1);
    if |fields| == 1 {
      Associative(m, "}", rest);
    } else {
      var e := Members(fields[1..]);
      assert Members(fields) == m + [','] + e;
      Associative(m + [','] + e, "}", rest);
      Associative(m + [','], e, "}" + rest);
      Associative(m, [','], e + ("}" + rest));
      Associative(e, "}", rest);
    }
  }

  /** Putting a member in front of encoded members that read back puts it in front of what is read. */
  lemma ReadMembersCons(field: (string, string), fields: seq<(string, string)>, rest: string)
    requires fields != [] && ReadMembers(Members(fields) + "}" + rest) == Some((fields, rest))
    ensures ReadMembers(Members([field] + fields) + "}" + rest) == Some(([field] + fields, rest))
  {
    var all := [field] + fields;
    assert all[0] == field && all[1..] == fields;
    MembersUnfold(all, rest);
    ReadNextMember(field.0, field.1, Members(fields) + "}" + rest);
  }

  /** The encoded members of a non-empty object, then `}`, read back as those members. */
  lemma {:induction false} ReadEncodedMembers(fields: seq<(string, string)>, rest: string)
    requires fields != []
    ensures ReadMembers(Members(fields) + "}" + rest) == Some((fields, rest))
    decreases |fields|
  {
    if |fields| == 1 {
      MembersUnfold(fields, rest);
      ReadLastMember(fields[0].0, fields[0].1, rest);
      assert [(fields[0].0, fields[0].1)] == fields;
    } else {
      ReadEncodedMembers(fields[1..], rest);
      ReadMembersCons(fields[0], fields[1..], rest);
      assert [fields[0]] + fields[1..] == fields;
    }
  }

  /** `JSON.parse(JSON.stringify(o))` gives back every member of `o`, in order. */
  lemma DecodeEncodeObject(fields: seq<(string, string)>)
    ensures DecodeObject(EncodeObject(fields)) == Some(fields)
  {
    var t := EncodeObject(fields);
    if fields != [] {
      var m := Members(fields);
      Associative("{", m, "}");
      assert t[1..] == m + "}" + [];
      ReadEncodedMembers(fields, []);
      assert t[1] == m[0] == '"';
    }
  }
}
