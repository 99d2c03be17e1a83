/** The XML text escaper `escape_char_for_xml`: it copies a NUL-terminated
    string into an output buffer, replacing the five characters XML reserves
    by their predefined entities and dropping newlines, and returns how many
    input characters it translated or dropped. */
module XmlEscape {
  import opened Unsigned

  /** The characters the escaper does not copy through unchanged. */
  predicate Translated(c: char)
  {
    c == '>' || c == '<' || c == '&' || c == '\'' || c == '\"' || c == '\n'
  }

  /** What the escaper writes for one input character. */
  function Entity(c: char): (e: seq<char>)
    ensures Translated(c) <==> e != [c]
    ensures |e| <= 6
  {
    match c
    case '>' => "&gt;"
    case '<' => "&lt;"
    case '&' => "&amp;"
    case '\'' => "&apos;"
    case '\"' => "&quot;"
    case '\n' => ""
    case _ => [c]
  }

  /** The whole escaped text: the entities of the characters, in order. It
      needs at most six output characters per input character. */
  function Escape(s: seq<char>): (e: seq<char>)
    ensures |e| <= 6 * |s|
  {
    if s == [] then [] else Entity(s[0]) + Escape(s[1..])
  }

  /** The number of characters the escaper translates or drops, at most
      one per input character. */
  function TranslatedCount(s: seq<char>): (n: nat)
    ensures n <= |s|
  {
    if s == [] then 0 else (if Translated(s[0]) then 1 else 0) + TranslatedCount(s[1..])
  }

  /** The text with its newlines removed. */
  function DropNewlines(s: seq<char>): seq<char>
  {
    if s == [] then [] else (if s[0] == '\n' then [] else [s[0]]) + DropNewlines(s[1..])
  }

  /** The content of a C string held in a buffer: the characters before the
      first NUL (the whole buffer when it holds none). */
  function CString(a: seq<char>): (s: seq<char>)
    ensures s <= a
    ensures '\0' !in s
    ensures |s| < |a| ==> a[|s|] == '\0'
  {
    if a == [] || a[0] == '\0' then [] else [a[0]] + CString(a[1..])
  }

  /** Decoding XML text: each of the five predefined entities becomes its
      character, everything else is kept. */
  function Unescape(t: seq<char>): seq<char>
    decreases |t|
  {
    if t == [] then []
    else if t[0] != '&' then [t[0]] + Unescape(t[1..])
    else if |t| >= 4 && t[..4] == "&gt;" then ['>'] + Unescape(t[4..])
    else if |t| >= 4 && t[..4] == "&lt;" then ['<'] + Unescape(t[4..])
    else if |t| >= 5 && t[..5] == "&amp;" then ['&'] + Unescape(t[5..])
    else if |t| >= 6 && t[..6] == "&apos;" then ['\''] + Unescape(t[6..])
    else if |t| >= 6 && t[..6] == "&quot;" then ['\"'] + Unescape(t[6..])
    else ['&'] + Unescape(t[1..])
  }

  /** Escaping distributes over concatenation. */
  lemma {:induction false} EscapeConcat(a: seq<char>, b: seq<char>)
    ensures Escape(a + b) == Escape(a) + Escape(b)
  {
    if a == [] {
      assert a + b == b;
    } else {
      assert (a + b)[1..] == a[1..] + b;
      EscapeConcat(a[1..], b);
    }
  }

  /** The count distributes over concatenation. */
  lemma {:induction false} TranslatedCountConcat(a: seq<char>, b: seq<char>)
    ensures TranslatedCount(a + b) == TranslatedCount(a) + TranslatedCount(b)
  {
    if a == [] {
      assert a + b == b;
    } else {
      assert (a + b)[1..] == a[1..] + b;
      TranslatedCountConcat(a[1..], b);
    }
  }

  /** The escaped text keeps at least one output character for every
      untranslated input character. */
  lemma {:induction false} EscapeLengthBounds(s: seq<char>)
    ensures |s| - TranslatedCount(s) <= |Escape(s)|
  {
    if s != [] {
      EscapeLengthBounds(s[1..]);
    }
  }

  /** A text without reserved characters or newlines is copied unchanged and
      counts zero; a count of zero means there was nothing to translate. */
  lemma {:induction false} EscapePlain(s: seq<char>)
    ensures TranslatedCount(s) == 0 <==> forall i :: 0 <= i < |s| ==> !Translated(s[i])
    ensures TranslatedCount(s) == 0 ==> Escape(s) == s
  {
    if s != [] {
      EscapePlain(s[1..]);
      assert forall i :: 1 <= i < |s| ==> s[i] == s[1..][i - 1];
    }
  }

  /** The escaped text contains none of `<`, `>`, `'`, `"` or a newline, so
      it can stand inside an XML element or attribute. */
  lemma {:induction false} EscapeIsMarkupFree(s: seq<char>)
    ensures forall i :: 0 <= i < |Escape(s)| ==> !Translated(Escape(s)[i]) || Escape(s)[i] == '&'
  {
    if s != [] {
      EscapeIsMarkupFree(s[1..]);
      var e := Entity(s[0]);
      assert Escape(s) == e + Escape(s[1..]);
      forall i | 0 <= i < |Escape(s)|
        ensures !Translated(Escape(s)[i]) || Escape(s)[i] == '&'
      {
        if i >= |e| {
          assert Escape(s)[i] == Escape(s[1..])[i - |e|];
        }
      }
    }
  }

  /** `u` begins with one of the five entities the escaper writes. */
  predicate StartsEntity(u: seq<char>)
  {
    (|u| >= 4 && (u[..4] == "&gt;" || u[..4] == "&lt;"))
    || (|u| >= 5 && u[..5] == "&amp;")
    || (|u| >= 6 && (u[..6] == "&apos;" || u[..6] == "&quot;"))
  }

  /** Every `&` in the escaped text begins an entity: no bare `&` gets
      through. */
  lemma {:induction false} EscapeAmpersandsStartEntities(s: seq<char>)
    ensures forall i :: 0 <= i < |Escape(s)| && Escape(s)[i] == '&' ==> StartsEntity(Escape(s)[i..])
  {
    if s != [] {
      EscapeAmpersandsStartEntities(s[1..]);
      var e, t := Entity(s[0]), Escape(s[1..]);
      assert Escape(s) == e + t;
      forall i | 0 <= i < |e + t| && (e + t)[i] == '&'
        ensures StartsEntity((e + t)[i..])
      {
        if i < |e| {
          EntityAmpersand(s[0], i, t);
        } else {
          assert (e + t)[i..] == t[i - |e|..];
        }
      }
    }
  }

  /** Within one character's output an `&` can only be the first character
      of an entity, whatever follows. */
  lemma EntityAmpersand(c: char, i: nat, t: seq<char>)
    requires i < |Entity(c)| && Entity(c)[i] == '&'
    ensures i == 0 && StartsEntity(Entity(c) + t)
  {
    var e := Entity(c);
    assert (e + t)[..|e|] == e;
  }

  /** The count is the number of translated or dropped characters, not the
      output length: `"plain"` counts 0 and is copied as is, `"<a&b>"` counts
      3 and becomes the 15 characters `&lt;a&amp;b&gt;`, and a newline is
      dropped and counted. */
  lemma EscapeExamplePlain()
    ensures TranslatedCount("plain") == 0 && Escape("plain") == "plain"
  {
    var s := "plain";
    assert !Translated(s[0]) && !Translated(s[1]) && !Translated(s[2]);
    assert !Translated(s[3]) && !Translated(s[4]);
    EscapePlain(s);
  }

  lemma EscapeExampleMarkup()
    ensures TranslatedCount("<a&b>") == 3
    ensures Escape("<a&b>") == "&lt;" + "a" + "&amp;" + "b" + "&gt;"
    ensures |Escape("<a&b>")| == 15
  {
    var s := "<a&b>";
    var s1, s2, s3, s4 := s[1..], s[2..], s[3..], s[4..];
    assert s1 == "a&b>" && s2 == "&b>" && s3 == "b>" && s4 == ">";
    assert s1[1..] == s2 && s2[1..] == s3 && s3[1..] == s4 && s4[1..] == [];
    assert Escape(s4) == "&gt;" + Escape([]);
    assert Escape(s3) == "b" + Escape(s4);
    assert Escape(s2) == "&amp;" + Escape(s3);
    assert Escape(s1) == "a" + Escape(s2);
    assert Escape(s) == "&lt;" + Escape(s1);
    assert TranslatedCount(s3) == 1;
  }

  lemma EscapeExampleNewline()
    ensures Escape("a\nb") == "ab" && TranslatedCount("a\nb") == 1
  {
    var s := "a\nb";
    assert s[1..] == "\nb" && s[1..][1..] == "b" && "b"[1..] == [];
    assert Escape("b") == "b" && Escape(s[1..]) == "b";
  }

  /** Decoding the escaped text gives back the input without its newlines. */
  lemma {:induction false} UnescapeEscape(s: seq<char>)
    ensures Unescape(Escape(s)) == DropNewlines(s)
  {
    if s != [] {
      assert Escape(s) == Entity(s[0]) + Escape(s[1..]);
      UnescapeEscape(s[1..]);
      UnescapeEntity(s[0], Escape(s[1..]));
    }
  }

  /** Decoding one character's entity, followed by any text, gives back the
      character (nothing for a newline) followed by that text decoded. */
  lemma UnescapeEntity(c: char, rest: seq<char>)
    ensures Unescape(Entity(c) + rest) == (if c == '\n' then [] else [c]) + Unescape(rest)
  {
    var t := Entity(c) + rest;
    if c == '\n' {
      assert t == rest;
    } else if !Translated(c) {
      assert t[0] == c && t[1..] == rest;
    } else {
      match c
      case '>' => UnescapeGt(rest);
      case '<' => UnescapeLt(rest);
      case '&' => UnescapeAmp(rest);
      case '\'' => UnescapeApos(rest);
      case '\"' => UnescapeQuot(rest);
    }
  }

  /** The decoder's step at each of the five entities. */
  lemma UnescapeGt(rest: seq<char>)
    ensures Unescape("&gt;" + rest) == ['>'] + Unescape(rest)
  {
    var t := "&gt;" + rest;
    assert t[0] == '&' && t[..4] == "&gt;" && t[4..] == rest;
  }

  lemma UnescapeLt(rest: seq<char>)
    ensures Unescape("&lt;" + rest) == ['<'] + Unescape(rest)
  {
    var t := "&lt;" + rest;
    assert t[0] == '&' && t[1] == 'l' && t[..4] == "&lt;" && t[4..] == rest;
  }

  lemma UnescapeAmp(rest: seq<char>)
    ensures Unescape("&amp;" + rest) == ['&'] + Unescape(rest)
  {
    var t := "&amp;" + rest;
    assert t[0] == '&' && t[1] == 'a' && t[..5] == "&amp;" && t[5..] == rest;
  }

  lemma UnescapeApos(rest: seq<char>)
    ensures Unescape("&apos;" + rest) == ['\''] + Unescape(rest)
  {
    var t := "&apos;" + rest;
    assert t[0] == '&' && t[1] == 'a' && t[2] == 'p' && t[..6] == "&apos;" && t[6..] == rest;
  }

  lemma UnescapeQuot(rest: seq<char>)
    ensures Unescape("&quot;" + rest) == ['\"'] + Unescape(rest)
  {
    var t := "&quot;" + rest;
    assert t[0] == '&' && t[1] == 'q' && t[..6] == "&quot;" && t[6..] == rest;
  }

  /** Extending a prefix of `s` by one character extends its escaped text by
      that character's entity, within the escaped text of all of `s`. */
  lemma PrefixStep(s: seq<char>, i: nat)
    requires i < |s|
    ensures Escape(s[..i + 1]) == Escape(s[..i]) + Entity(s[i])
    ensures TranslatedCount(s[..i + 1]) == TranslatedCount(s[..i]) + if Translated(s[i]) then 1 else 0
    ensures |Escape(s[..i + 1])| <= |Escape(s)|
  {
    var c := s[i];
    assert s[..i + 1] == s[..i] + [c];
    assert [c][1..] == [];
    EscapeConcat(s[..i], [c]);
    TranslatedCountConcat(s[..i], [c]);
    EscapeConcat(s[..i + 1], s[i + 1..]);
    assert s == s[..i + 1] + s[i + 1..];
  }

  /** The escaper's `count` tracks the number of translated characters
      modulo 2^32 across one more character. */
  lemma CountStep(s: seq<char>, i: nat, count: u32)
    requires i < |s|
    requires count as int == TranslatedCount(s[..i]) % U32_MODULUS
    ensures (if Translated(s[i]) then Inc32(count) else count) as int
      == TranslatedCount(s[..i + 1]) % U32_MODULUS
  {
    var n := TranslatedCount(s[..i]);
    CountPrefixStep(s, i);
    if Translated(s[i]) {
      Inc32Mod(n);
    }
  }

  /** The count of a prefix one character longer. */
  lemma CountPrefixStep(s: seq<char>, i: nat)
    requires i < |s|
    ensures TranslatedCount(s[..i + 1]) == TranslatedCount(s[..i]) + if Translated(s[i]) then 1 else 0
  {
    assert s[..i + 1] == s[..i] + [s[i]];
    assert [s[i]][1..] == [];
    TranslatedCountConcat(s[..i], [s[i]]);
  }

  /** After writing `ent` at `pos`, the written prefix ends with `ent` and
      everything from `limit` on is as before. */
  lemma WriteStep(before: seq<char>, after: seq<char>, pos: nat, ent: seq<char>, limit: nat)
    requires pos + |ent| <= limit <= |before|
    requires after == before[..pos] + ent + before[pos + |ent|..]
    ensures after[..pos + |ent|] == before[..pos] + ent
    ensures after[limit..] == before[limit..]
  {
  }

  /** `memcpy(out + pos, text, |text|)`. */
  method CopyInto(out: array<char>, pos: nat, text: seq<char>)
    requires pos + |text| <= out.Length
    modifies out
    ensures out[..] == old(out[..pos]) + text + old(out[pos + |text|..])
  {
    var k := 0;
    while k < |text|
      invariant 0 <= k <= |text|
      invariant forall j :: pos <= j < pos + k ==> out[j] == text[j - pos]
      invariant forall j :: 0 <= j < out.Length && !(pos <= j < pos + k) ==> out[j] == old(out[j])
    {
      out[pos + k] := text[k];
      k := k + 1;
    }
  }

  /** One iteration of the escaper's loop: the `switch` on the input
      character `c`, which writes its entity at `pos` and advances the cursor
      and the count (incremented for every character, decremented again for
      one copied unchanged). */
  method EscapeStep(out: array<char>, pos: nat, c: char, count: u32) returns (pos': nat, count': u32)
    requires pos + |Entity(c)| <= out.Length
    modifies out
    ensures out[..] == old(out[..pos]) + Entity(c) + old(out[pos + |Entity(c)|..])
    ensures pos' == pos + |Entity(c)|
    ensures count' == if Translated(c) then Inc32(count) else count
  {
    count' := Inc32(count);
    match c {
      case '>' =>
        CopyInto(out, pos, "&gt;");
        pos' := pos + 4;
      case '<' =>
        CopyInto(out, pos, "&lt;");
        pos' := pos + 4;
      case '&' =>
        CopyInto(out, pos, "&amp;");
        pos' := pos + 5;
      case '\'' =>
        CopyInto(out, pos, "&apos;");
        pos' := pos + 6;
      case '\"' =>
        CopyInto(out, pos, "&quot;");
        pos' := pos + 6;
      case '\n' =>
        pos' := pos;
      case _ =>
        count' := Dec32(count');
        CopyInto(out, pos, [c]);
        pos' := pos + 1;
    }
  }

  /** `escape_char_for_xml(in, out)`: writes the escaped text of the C string
      in `inp` to the front of `out`, writes nothing else (no terminating NUL
      either), and returns the translated-or-dropped count as an
      `unsigned int`. The caller must size `out` for the escaped text. */
  method EscapeCharForXml(inp: array<char>, out: array<char>) returns (count: u32)
    requires '\0' in inp[..]
    requires inp != out
    requires |Escape(CString(inp[..]))| <= out.Length
    modifies out
    ensures var e := Escape(CString(inp[..]));
      out[..|e|] == e && out[|e|..] == old(out[|e|..])
    ensures count as int == TranslatedCount(CString(inp[..])) % U32_MODULUS
  {
    ghost var s := CString(inp[..]);
    ghost var e := Escape(s);
    CStringInBuffer(inp[..]);
    count := 0;
    var posIn, posOut := 0, 0;
    CStringAt(inp[..], posIn);
    while inp[posIn] != '\0'
      invariant 0 <= posIn <= |s|
      invariant posOut == |Escape(s[..posIn])| <= |e|
      invariant out[..posOut] == Escape(s[..posIn])
      invariant out[|e|..] == old(out[|e|..])
      invariant count as int == TranslatedCount(s[..posIn]) % U32_MODULUS
      decreases |s| - posIn
    {
      posOut, count := EscapeNext(inp, out, s, posIn, posOut, count);
      posIn := posIn + 1;
      CStringAt(inp[..], posIn);
    }
    assert s[..posIn] == s;
  }

  /** One iteration of the escaper's loop, at input position `posIn`: the
      output written so far grows from the escaped text of the first `posIn`
      characters to that of the first `posIn + 1`, and the count follows. */
  method EscapeNext(inp: array<char>, out: array<char>, ghost s: seq<char>, posIn: nat, posOut: nat, count: u32)
    returns (posOut': nat, count': u32)
    requires inp != out
    requires s == CString(inp[..]) && |s| < inp.Length && posIn < |s|
    requires |Escape(s)| <= out.Length
    requires posOut == |Escape(s[..posIn])| <= |Escape(s)|
    requires out[..posOut] == Escape(s[..posIn])
    requires count as int == TranslatedCount(s[..posIn]) % U32_MODULUS
    modifies out
    ensures posOut' == |Escape(s[..posIn + 1])| <= |Escape(s)|
    ensures out[..posOut'] == Escape(s[..posIn + 1])
    ensures out[|Escape(s)|..] == old(out[|Escape(s)|..])
    ensures count' as int == TranslatedCount(s[..posIn + 1]) % U32_MODULUS
  {
    CStringAt(inp[..], posIn);
    var c := inp[posIn];
    assert c == s[posIn];
    CountStep(s, posIn, count);
    PrefixStep(s, posIn);
    ghost var before := out[..];
    posOut', count' := EscapeStep(out, posOut, c, count);
    AdvanceOutput(s, posIn, before, out[..]);
  }

  /** The C string of a buffer holding a NUL is shorter than the buffer. */
  lemma CStringInBuffer(a: seq<char>)
    requires '\0' in a
    ensures |CString(a)| < |a|
  {
  }

  /** The loop's test `in[pos_in]` stops exactly at the end of the C string,
      and before it reads the string's characters. */
  lemma CStringAt(a: seq<char>, i: nat)
    requires |CString(a)| < |a| && i <= |CString(a)|
    ensures a[i] == '\0' <==> i == |CString(a)|
    ensures i < |CString(a)| ==> a[i] == CString(a)[i]
  {
    var s := CString(a);
    if i < |s| {
      assert a[i] == s[i] && s[i] in s;
    }
  }

  /** After writing character `i`'s entity at the end of the output written
      so far, the output holds the escaped prefix one character longer, and
      nothing from the end of the whole escaped text on has changed. */
  lemma AdvanceOutput(s: seq<char>, i: nat, before: seq<char>, after: seq<char>)
    requires i < |s| && |Escape(s)| <= |before|
    requires Escape(s[..i + 1]) == Escape(s[..i]) + Entity(s[i])
    requires |Escape(s[..i + 1])| <= |Escape(s)|
    requires before[..|Escape(s[..i])|] == Escape(s[..i])
    requires after == before[..|Escape(s[..i])|] + Entity(s[i]) + before[|Escape(s[..i])| + |Entity(s[i])|..]
    ensures after[..|Escape(s[..i + 1])|] == Escape(s[..i + 1])
    ensures after[|Escape(s)|..] == before[|Escape(s)|..]
  {
    WriteStep(before, after, |Escape(s[..i])|, Entity(s[i]), |Escape(s)|);
  }
}
