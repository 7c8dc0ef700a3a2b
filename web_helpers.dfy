/** String helpers of the map window (MainForm.cs): JSON string escaping and the
    MIME type for a photo's file extension. */
module WebHelpers {

  /** string.Replace with a one-character pattern: every occurrence of `c`, left to right,
      becomes `with`. */
  function Replace(s: string, c: char, with: string): (r: string)
    ensures c !in s ==> r == s
  {
    if |s| == 0 then "" else (if s[0] == c then with else [s[0]]) + Replace(s[1..], c, with)
  }

  /** MainForm.EscapeJson (and the identical Form1.EscapeJson): four chained replacements,
      backslash first. The empty string is returned as it is. */
  function EscapeJson(text: string): (r: string)
    ensures |text| == 0 ==> r == text
  {
    if |text| == 0 then text
    else Replace(Replace(Replace(Replace(text, '\\', "\\\\"), '"', "\\\""), '\n', "\\n"), '\r', "\\r")
  }

  predicate IsSpecial(c: char)
  {
    c == '\\' || c == '"' || c == '\n' || c == '\r'
  }

  /** How one character is written inside a JSON string literal by EscapeJson. */
  function EscapeChar(c: char): (r: string)
    ensures IsSpecial(c) ==> |r| == 2 && r[0] == '\\'
    ensures !IsSpecial(c) ==> r == [c]
  {
    if c == '\\' then "\\\\"
    else if c == '"' then "\\\""
    else if c == '\n' then "\\n"
    else if c == '\r' then "\\r"
    else [c]
  }

  /** Reference definition: escape each character independently. */
  function EscapeEach(s: string): string
  {
    if |s| == 0 then "" else EscapeChar(s[0]) + EscapeEach(s[1..])
  }

  /** The number of characters EscapeJson has to escape. */
  function CountSpecial(s: string): nat
  {
    if |s| == 0 then 0 else (if IsSpecial(s[0]) then 1 else 0) + CountSpecial(s[1..])
  }

  /** A JSON reader's decoding of the four escapes EscapeJson writes. */
  function Unescape(s: string): string
  {
    if |s| == 0 then ""
    else if s[0] == '\\' && |s| >= 2 then
      (if s[1] == 'n' then "\n" else if s[1] == 'r' then "\r" else [s[1]]) + Unescape(s[2..])
    else [s[0]] + Unescape(s[1..])
  }

  lemma {:induction false} ReplaceAppend(a: string, b: string, c: char, with: string)
    ensures Replace(a + b, c, with) == Replace(a, c, with) + Replace(b, c, with)
  {
    if |a| > 0 {
      assert (a + b)[1..] == a[1..] + b;
      ReplaceAppend(a[1..], b, c, with);
    } else {
      assert a + b == b;
    }
  }

  /** The four replacements of EscapeJson applied in order, also to the empty string. */
  function Chain(s: string): string
  {
    Replace(Replace(Replace(Replace(s, '\\', "\\\\"), '"', "\\\""), '\n', "\\n"), '\r', "\\r")
  }

  lemma ChainAppend(a: string, b: string)
    ensures Chain(a + b) == Chain(a) + Chain(b)
  {
    var a1, b1 := Replace(a, '\\', "\\\\"), Replace(b, '\\', "\\\\");
    ReplaceAppend(a, b, '\\', "\\\\");
    var a2, b2 := Replace(a1, '"', "\\\""), Replace(b1, '"', "\\\"");
    ReplaceAppend(a1, b1, '"', "\\\"");
    var a3, b3 := Replace(a2, '\n', "\\n"), Replace(b2, '\n', "\\n");
    ReplaceAppend(a2, b2, '\n', "\\n");
    ReplaceAppend(a3, b3, '\r', "\\r");
  }

  lemma ChainChar(c: char)
    ensures Chain([c]) == EscapeChar(c)
  {
    assert [c][1..] == "";
    var s1 := Replace([c], '\\', "\\\\");
    assert s1 == (if c == '\\' then "\\\\" else [c]);
    var s2 := Replace(s1, '"', "\\\"");
    if c == '\\' {
      assert s1[1..][1..] == "";
      assert s2 == s1;
    } else {
      assert s2 == (if c == '"' then "\\\"" else [c]);
    }
  }

  /** Doubling backslashes first means no escape written by a later replacement is doubled
      again: the chain escapes each input character on its own. */
  lemma {:induction false} EscapeJsonIsPerCharacter(s: string)
    ensures EscapeJson(s) == EscapeEach(s)
  {
    if |s| > 0 {
      assert s == [s[0]] + s[1..];
      ChainAppend([s[0]], s[1..]);
      ChainChar(s[0]);
      EscapeJsonIsPerCharacter(s[1..]);
      if |s[1..]| == 0 {
        assert Chain(s[1..]) == "";
      }
    }
  }

  /** Decoding the escaped string gives back the original text. */
  lemma {:induction false} UnescapeEscapeJson(s: string)
    ensures Unescape(EscapeJson(s)) == s
  {
    EscapeJsonIsPerCharacter(s);
    UnescapeEscapeEach(s);
  }

  lemma {:induction false} UnescapeEscapeEach(s: string)
    ensures Unescape(EscapeEach(s)) == s
  {
    if |s| > 0 {
      var e, t := EscapeChar(s[0]), EscapeEach(s[1..]);
      UnescapeEscapeEach(s[1..]);
      if IsSpecial(s[0]) {
        assert (e + t)[2..] == t;
      } else {
        assert (e + t)[1..] == t;
      }
      assert s == [s[0]] + s[1..];
    }
  }

  /** Each escaped character adds exactly one character, and no raw line feed or carriage
      return survives. */
  lemma {:induction false} EscapeEachShape(s: string)
    ensures |EscapeEach(s)| == |s| + CountSpecial(s)
    ensures '\n' !in EscapeEach(s) && '\r' !in EscapeEach(s)
  {
    if |s| > 0 {
      EscapeEachShape(s[1..]);
    }
  }

  /** EscapeJson grows the text by one character per `\`, `"`, line feed or carriage return,
      and its result holds no raw line feed or carriage return. */
  lemma EscapeJsonShape(s: string)
    ensures |EscapeJson(s)| == |s| + CountSpecial(s)
    ensures '\n' !in EscapeJson(s) && '\r' !in EscapeJson(s)
  {
    EscapeJsonIsPerCharacter(s);
    EscapeEachShape(s);
  }

  /** Text without any of the four special characters comes back unchanged. */
  lemma {:induction false} EscapeJsonPlainText(s: string)
    requires forall i :: 0 <= i < |s| ==> !IsSpecial(s[i])
    ensures EscapeJson(s) == s
  {
    EscapeJsonIsPerCharacter(s);
    EscapeEachPlain(s);
  }

  lemma {:induction false} EscapeEachPlain(s: string)
    requires forall i :: 0 <= i < |s| ==> !IsSpecial(s[i])
    ensures EscapeEach(s) == s
  {
    if |s| > 0 {
      EscapeEachPlain(s[1..]);
      assert s == [s[0]] + s[1..];
    }
  }

  /** MainForm.GetMimeType: the photo MIME type for an extension, JPEG by default. */
  function GetMimeType(extension: string): (mime: string)
    ensures mime == "image/png" <==> extension == ".png"
    ensures mime == "image/gif" <==> extension == ".gif"
    ensures mime == "image/bmp" <==> extension == ".bmp"
    ensures mime == "image/jpeg" <==> extension !in {".png", ".gif", ".bmp"}
  {
    match extension
    case ".jpg" => "image/jpeg"
    case ".jpeg" => "image/jpeg"
    case ".png" => "image/png"
    case ".gif" => "image/gif"
    case ".bmp" => "image/bmp"
    case _ => "image/jpeg"
  }
}
