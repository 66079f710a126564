/** escapeHtml: the five-character entity substitution applied to names and addresses
    before they are placed in report markup, and its inverse. */
module Html {
  import opened Text

  /** The characters that can break out of an element or an attribute value. */
  predicate IsMarkupSpecial(c: char) {
    c == '&' || c == '<' || c == '>' || c == '"' || c == '\''
  }

  /** The replacement for one character: its entity, or the character itself. */
  function EscapeChar(c: char): (r: string)
    ensures |r| >= 1
    ensures IsMarkupSpecial(c) ==> r[0] == '&'
    ensures !IsMarkupSpecial(c) ==> r == [c]
  {
    match c
    case '&' => "&amp;"
    case '<' => "&lt;"
    case '>' => "&gt;"
    case '"' => "&quot;"
    case '\'' => "&#039;"
    case _ => [c]
  }

  /** `text.replace(/[&<>"']/g, m => map[m])`: every special character is replaced by
      its entity, so the output holds none of `<`, `>`, `"`, `'`. */
  function EscapeHtml(s: string): (r: string)
    ensures |r| >= |s|
    ensures forall i :: 0 <= i < |r| ==> r[i] != '<' && r[i] != '>' && r[i] != '"' && r[i] != '\''
  {
    if s == [] then [] else EscapeChar(s[0]) + EscapeHtml(s[1..])
  }

  /** Escaping distributes over concatenation: it works character by character. */
  lemma {:induction false} EscapeHtmlAppend(a: string, b: string)
    ensures EscapeHtml(a + b) == EscapeHtml(a) + EscapeHtml(b)
  {
    if a == [] {
      assert a + b == b;
    } else {
      assert (a + b)[0] == a[0] && (a + b)[1..] == a[1..] + b;
      EscapeHtmlAppend(a[1..], b);
    }
  }

  /** Text without any of the five characters is left exactly as it is. */
  lemma {:induction false} EscapeHtmlIdentity(s: string)
    requires forall i :: 0 <= i < |s| ==> !IsMarkupSpecial(s[i])
    ensures EscapeHtml(s) == s
  {
    if s != [] {
      EscapeHtmlIdentity(s[1..]);
    }
  }

  /** The character at the head of s once entities are decoded, and how many
      characters of s it takes up. */
  function DecodeHead(s: string): (r: (char, nat))
    requires s != []
    ensures 1 <= r.1 <= |s|
  {
    if s[0] != '&' then (s[0], 1)
    else if IsPrefix("&amp;", s) then ('&', 5)
    else if IsPrefix("&lt;", s) then ('<', 4)
    else if IsPrefix("&gt;", s) then ('>', 4)
    else if IsPrefix("&quot;", s) then ('"', 6)
    else if IsPrefix("&#039;", s) then ('\'', 6)
    else ('&', 1)
  }

  /** Decodes the five entities EscapeHtml produces; every other character is copied. */
  function UnescapeHtml(s: string): string
    decreases |s|
  {
    if s == [] then [] else [DecodeHead(s).0] + UnescapeHtml(s[DecodeHead(s).1..])
  }

  /** The head of an escaped character decodes to that character. */
  lemma DecodeHeadEscapeChar(c: char, rest: string)
    ensures DecodeHead(EscapeChar(c) + rest) == (c, |EscapeChar(c)|)
  {
    var s := EscapeChar(c) + rest;
    if c == '&' {
      assert s[..5] == "&amp;";
    } else if c == '<' {
      assert s[..4] == "&lt;" && s[1] == 'l';
    } else if c == '>' {
      assert s[..4] == "&gt;" && s[1] == 'g';
    } else if c == '"' {
      assert s[..6] == "&quot;" && s[1] == 'q';
    } else if c == '\'' {
      assert s[..6] == "&#039;" && s[1] == '#';
    } else {
      assert s[0] == c;
    }
  }

  /** Decoding one escaped character and then the rest. */
  lemma UnescapeEscapeChar(c: char, rest: string)
    ensures UnescapeHtml(EscapeChar(c) + rest) == [c] + UnescapeHtml(rest)
  {
    var s := EscapeChar(c) + rest;
    DecodeHeadEscapeChar(c, rest);
    assert s[|EscapeChar(c)|..] == rest;
  }

  /** Escaping loses nothing: the escaped text decodes back to the original, so a report
      cell carries the same name or address as the spreadsheet cell. */
  lemma {:induction false} UnescapeEscape(s: string)
    ensures UnescapeHtml(EscapeHtml(s)) == s
  {
    if s != [] {
      UnescapeEscapeChar(s[0], EscapeHtml(s[1..]));
      UnescapeEscape(s[1..]);
    }
  }
}
