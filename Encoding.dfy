/** The payload encoder/decoder of the payloads page (js/main.js): the
    hand-written HTML-entity encoder, and the dispatch of the encode and
    decode buttons to it and to the browser's own codecs. */
module Encoding {
  import opened Wrappers
  import opened Text

  /** The entity the encoder writes for one character; every other
      character stands for itself. */
  function Entity(c: char): string
  {
    if c == '&' then "&amp;"
    else if c == '<' then "&lt;"
    else if c == '>' then "&gt;"
    else if c == '"' then "&quot;"
    else if c == '\'' then "&#39;"
    else [c]
  }

  /** The five characters the encoder replaces. */
  predicate IsMarkup(c: char) {
    c == '&' || c == '<' || c == '>' || c == '"' || c == '\''
  }

  /** `text.replace(/[&<>"']/g, …)`: every markup character replaced by its
      entity, everything else copied. The result is never shorter, contains
      none of `< > " '`, and equals the input when the input has no markup
      character. */
  function HtmlEncode(s: string): (r: string)
    ensures |r| >= |s|
    ensures forall k :: 0 <= k < |r| ==> r[k] != '<' && r[k] != '>' && r[k] != '"' && r[k] != '\''
    ensures (forall k :: 0 <= k < |s| ==> !IsMarkup(s[k])) ==> r == s
  {
    if s == [] then ""
    else
      var head := Entity(s[0]);
      var tail := HtmlEncode(s[1..]);
      assert forall k :: 0 <= k < |head| ==> head[k] != '<' && head[k] != '>' && head[k] != '"' && head[k] != '\'';
      assert forall k :: 0 <= k < |head + tail| ==> (head + tail)[k] == if k < |head| then head[k] else tail[k - |head|];
      head + tail
  }

  /** Encoding works character by character. */
  lemma {:induction false} HtmlEncodeAppend(a: string, b: string)
    ensures HtmlEncode(a + b) == HtmlEncode(a) + HtmlEncode(b)
  {
    if a == [] {
      assert a + b == b;
    } else {
      assert (a + b)[0] == a[0];
      assert (a + b)[1..] == a[1..] + b;
      HtmlEncodeAppend(a[1..], b);
    }
  }

  /** A reference decoder for exactly the five entities the encoder writes;
      any other text, `&` included, is copied. */
  function DecodeEntities(s: string): string
    decreases |s|
  {
    if s == [] then ""
    else if StartsWith(s, "&amp;") then "&" + DecodeEntities(s[5..])
    else if StartsWith(s, "&lt;") then "<" + DecodeEntities(s[4..])
    else if StartsWith(s, "&gt;") then ">" + DecodeEntities(s[4..])
    else if StartsWith(s, "&quot;") then "\"" + DecodeEntities(s[6..])
    else if StartsWith(s, "&#39;") then "'" + DecodeEntities(s[5..])
    else [s[0]] + DecodeEntities(s[1..])
  }

  /** The decoder reads back the entity of one character, whatever follows. */
  lemma DecodeEntity(c: char, t: string)
    ensures DecodeEntities(Entity(c) + t) == [c] + DecodeEntities(t)
  {
    var s := Entity(c) + t;
    if c == '&' {
      assert s[..5] == "&amp;" && s[5..] == t;
    } else if c == '<' {
      DecodeLt(t);
    } else if c == '>' {
      DecodeGt(t);
    } else if c == '"' {
      DecodeQuot(t);
    } else if c == '\'' {
      DecodeApos(t);
    } else {
      assert s[0] == c && s[1..] == t;
      assert !StartsWith(s, "&amp;") && !StartsWith(s, "&lt;") && !StartsWith(s, "&gt;")
          && !StartsWith(s, "&quot;") && !StartsWith(s, "&#39;") by {
        assert s[0] != '&';
      }
    }
  }

  lemma DecodeLt(t: string)
    ensures DecodeEntities("&lt;" + t) == "<" + DecodeEntities(t)
  {
    var s := "&lt;" + t;
    assert s[..4] == "&lt;" && s[4..] == t;
    assert !StartsWith(s, "&amp;") by { assert s[1] == 'l'; }
  }

  lemma DecodeGt(t: string)
    ensures DecodeEntities("&gt;" + t) == ">" + DecodeEntities(t)
  {
    var s := "&gt;" + t;
    assert s[..4] == "&gt;" && s[4..] == t;
    assert !StartsWith(s, "&amp;") && !StartsWith(s, "&lt;") by { assert s[1] == 'g'; }
  }

  lemma DecodeQuot(t: string)
    ensures DecodeEntities("&quot;" + t) == "\"" + DecodeEntities(t)
  {
    var s := "&quot;" + t;
    assert s[..6] == "&quot;" && s[6..] == t;
    assert !StartsWith(s, "&amp;") && !StartsWith(s, "&lt;") && !StartsWith(s, "&gt;") by {
      assert s[1] == 'q';
    }
  }

  lemma DecodeApos(t: string)
    ensures DecodeEntities("&#39;" + t) == "'" + DecodeEntities(t)
  {
    var s := "&#39;" + t;
    assert s[..5] == "&#39;" && s[5..] == t;
    assert !StartsWith(s, "&amp;") && !StartsWith(s, "&lt;") && !StartsWith(s, "&gt;")
        && !StartsWith(s, "&quot;") by {
      assert s[1] == '#';
    }
  }

  /** Decoding the five entities undoes the encoder on every input. */
  lemma {:induction false} HtmlRoundTrip(s: string)
    ensures DecodeEntities(HtmlEncode(s)) == s
  {
    if s != [] {
      DecodeEntity(s[0], HtmlEncode(s[1..]));
      HtmlRoundTrip(s[1..]);
      assert [s[0]] + s[1..] == s;
    }
  }

  /** The browser's built-in codecs, which this model does not see into. A
      function returns `None` where the built-in throws: `btoa` on a
      character above U+00FF, `atob` on text that is not base64,
      `encodeURIComponent` on a lone surrogate, `decodeURIComponent` on a
      malformed percent escape. The `<textarea>` entity decoder never throws. */
  datatype Builtins = Builtins(
    btoa: string -> Option<string>,
    atob: string -> Option<string>,
    encodeURIComponent: string -> Option<string>,
    decodeURIComponent: string -> Option<string>,
    textareaDecode: string -> string)

  /** The text written to the output box when a decoder throws. */
  const DecodeError := "Error: Invalid input for decoding"

  /** What an encode button does: `Some(text for the output box)`, or
      `None` when the built-in throws. The encode path has no `catch`, so
      the exception leaves the handler and the output box keeps its text.
      An unknown kind writes the empty string. */
  function EncodeResult(kind: string, text: string, lib: Builtins): (r: Option<string>)
    ensures r.None? <==> ((kind == "base64" && lib.btoa(text).None?)
                          || (kind == "url" && lib.encodeURIComponent(text).None?))
    ensures kind == "base64" ==> r == lib.btoa(text)
    ensures kind == "url" ==> r == lib.encodeURIComponent(text)
    ensures kind == "html" ==> r == Some(HtmlEncode(text))
    ensures kind != "base64" && kind != "url" && kind != "html" ==> r == Some("")
  {
    if kind == "base64" then lib.btoa(text)
    else if kind == "url" then lib.encodeURIComponent(text)
    else if kind == "html" then Some(HtmlEncode(text))
    else Some("")
  }

  /** What a decode button writes to the output box. It always writes: a
      decoder that throws is caught and replaced by the fixed error text,
      and the HTML branch cannot throw. */
  function DecodeResult(kind: string, text: string, lib: Builtins): (r: string)
    ensures kind == "base64" ==> r == (if lib.atob(text).None? then DecodeError else lib.atob(text).value)
    ensures kind == "url" ==> r == (if lib.decodeURIComponent(text).None? then DecodeError else lib.decodeURIComponent(text).value)
    ensures kind == "html" ==> r == lib.textareaDecode(text)
    ensures kind != "base64" && kind != "url" && kind != "html" ==> r == ""
  {
    var decoded :=
      if kind == "base64" then lib.atob(text)
      else if kind == "url" then lib.decodeURIComponent(text)
      else if kind == "html" then Some(lib.textareaDecode(text))
      else Some("");
    match decoded
    case None => DecodeError
    case Some(v) => v
  }
}
