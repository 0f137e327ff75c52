/** Unpadded base64 with the standard alphabet (section 4 of RFC 4648). */
module Base64 {
  import opened Bytes
  import opened Wrappers

  /** The character for a value below 64: capitals, small letters, digits, plus and slash. */
  function Symbol(v: int): char
    requires 0 <= v < 64
  {
    if v < 26 then 'A' + v as char
    else if v < 52 then 'a' + (v - 26) as char
    else if v < 62 then '0' + (v - 52) as char
    else if v == 62 then '+' else '/'
  }

  /** The value of a character, if it is in the alphabet. */
  function Value(c: char): (v: int)
    ensures -1 <= v < 64
  {
    if 'A' <= c <= 'Z' then (c - 'A') as int
    else if 'a' <= c <= 'z' then (c - 'a') as int + 26
    else if '0' <= c <= '9' then (c - '0') as int + 52
    else if c == '+' then 62
    else if c == '/' then 63
    else -1
  }

  predicate InAlphabet(c: char) {
    'A' <= c <= 'Z' || 'a' <= c <= 'z' || '0' <= c <= '9' || c == '+' || c == '/'
  }

  /** The symbols are the alphabet in its order, and a character has the value of the symbol it is. */
  lemma SymbolsAreAlphabet(v: int, c: char)
    requires 0 <= v < 64
    ensures Symbol(0) == 'A' && Symbol(26) == 'a' && Symbol(52) == '0' && Symbol(62) == '+' && Symbol(63) == '/'
    ensures v !in {0, 26, 52, 62, 63} ==> Symbol(v) as int == Symbol(v - 1) as int + 1
    ensures Value(c) == v <==> c == Symbol(v)
    ensures Value(c) == -1 <==> !InAlphabet(c)
  {
  }

  lemma SymbolsAreDistinct(v: int)
    requires 0 <= v < 64
    ensures Value(Symbol(v)) == v && Symbol(v) != '$' && Symbol(v) != '\n' && Symbol(v) != '\r'
  {
  }

  function Encode(bytes: seq<byte>): (text: string)
    decreases |bytes|
  {
    if |bytes| == 0 then ""
    else
      var a := bytes[0] as int;
      if |bytes| == 1 then [Symbol(a / 4), Symbol(a % 4 * 16)]
      else
        var b := bytes[1] as int;
        if |bytes| == 2 then [Symbol(a / 4), Symbol(a % 4 * 16 + b / 16), Symbol(b % 16 * 4)]
        else
          var c := bytes[2] as int;
          [Symbol(a / 4), Symbol(a % 4 * 16 + b / 16), Symbol(b % 16 * 4 + c / 64), Symbol(c % 64)] + Encode(bytes[3..])
  }

  /** Line breaks are skipped wherever they stand. */
  function WithoutBreaks(text: string): string {
    if text == "" then ""
    else if text[0] == '\n' || text[0] == '\r' then WithoutBreaks(text[1..])
    else [text[0]] + WithoutBreaks(text[1..])
  }

  /** Decodes groups of four characters; a shorter last group has two or three, and its unused
      bits are ignored. */
  function DecodeGroups(text: string): (bytes: Option<seq<byte>>)
    decreases |text|
  {
    if |text| == 0 then Some([])
    else if |text| == 1 then None
    else
      var p, q := Value(text[0]), Value(text[1]);
      if p < 0 || q < 0 then None
      else
        var a := (p * 4 + q / 16) as byte;
        if |text| == 2 then Some([a])
        else
          var r := Value(text[2]);
          if r < 0 then None
          else
            var b := (q % 16 * 16 + r / 4) as byte;
            if |text| == 3 then Some([a, b])
            else
              var s := Value(text[3]);
              if s < 0 then None
              else
                var rest := DecodeGroups(text[4..]);
                if rest.None? then None else Some([a, b, (r % 4 * 64 + s) as byte] + rest.value)
  }

  function Decode(text: string): Option<seq<byte>> {
    DecodeGroups(WithoutBreaks(text))
  }

  /** No character of an encoding is a dollar sign or a line break. */
  lemma {:induction false} EncodingIsClean(bytes: seq<byte>)
    ensures forall i :: 0 <= i < |Encode(bytes)| ==> Encode(bytes)[i] != '$' && Encode(bytes)[i] != '\n' && Encode(bytes)[i] != '\r'
    decreases |bytes|
  {
    hide Value;
    forall v | 0 <= v < 64 ensures Symbol(v) != '$' && Symbol(v) != '\n' && Symbol(v) != '\r' {
      SymbolsAreDistinct(v);
    }
    hide Symbol;
    if |bytes| >= 3 {
      EncodingIsClean(bytes[3..]);
    }
  }

  lemma {:induction false} NoBreaks(text: string)
    requires forall i :: 0 <= i < |text| ==> text[i] != '\n' && text[i] != '\r'
    ensures WithoutBreaks(text) == text
  {
    if text != "" {
      NoBreaks(text[1..]);
    }
  }

  /** Three bytes are four values of six bits. */
  lemma Sextets(a: int, b: int, c: int)
    requires 0 <= a < 256 && 0 <= b < 256 && 0 <= c < 256
    ensures var p, q, r, s := a / 4, a % 4 * 16 + b / 16, b % 16 * 4 + c / 64, c % 64;
            && 0 <= p < 64 && 0 <= q < 64 && 0 <= r < 64 && 0 <= s < 64
            && p * 4 + q / 16 == a && q % 16 * 16 + r / 4 == b && r % 4 * 64 + s == c
  {
  }

  /** The four values, most significant first, spell the number the three bytes spell. */
  lemma SameNumber(a: int, b: int, c: int)
    requires 0 <= a < 256 && 0 <= b < 256 && 0 <= c < 256
    ensures var p, q, r, s := a / 4, a % 4 * 16 + b / 16, b % 16 * 4 + c / 64, c % 64;
            ((p * 64 + q) * 64 + r) * 64 + s == (a * 256 + b) * 256 + c
  {
  }

  lemma DecodeFour(p: int, q: int, r: int, s: int, rest: string)
    requires 0 <= p < 64 && 0 <= q < 64 && 0 <= r < 64 && 0 <= s < 64
    ensures DecodeGroups([Symbol(p), Symbol(q), Symbol(r), Symbol(s)] + rest) ==
            if DecodeGroups(rest).None? then None
            else Some([(p * 4 + q / 16) as byte, (q % 16 * 16 + r / 4) as byte, (r % 4 * 64 + s) as byte] + DecodeGroups(rest).value)
  {
    SymbolsAreDistinct(p);
    SymbolsAreDistinct(q);
    SymbolsAreDistinct(r);
    SymbolsAreDistinct(s);
    hide Symbol;
    hide Value;
    assert ([Symbol(p), Symbol(q), Symbol(r), Symbol(s)] + rest)[4..] == rest;
  }

  lemma DecodeShort(p: int, q: int, r: int)
    requires 0 <= p < 64 && 0 <= q < 64 && 0 <= r < 64
    ensures DecodeGroups([Symbol(p), Symbol(q)]) == Some([(p * 4 + q / 16) as byte])
    ensures DecodeGroups([Symbol(p), Symbol(q), Symbol(r)]) == Some([(p * 4 + q / 16) as byte, (q % 16 * 16 + r / 4) as byte])
  {
    SymbolsAreDistinct(p);
    SymbolsAreDistinct(q);
    SymbolsAreDistinct(r);
    hide Symbol;
    hide Value;
  }

  lemma {:induction false} GroupsRoundTrip(bytes: seq<byte>)
    ensures DecodeGroups(Encode(bytes)) == Some(bytes)
    decreases |bytes|
  {
    hide Symbol;
    hide DecodeGroups;
    if |bytes| == 0 {
      assert bytes == [];
      NothingToDecode();
    } else if |bytes| < 3 {
      var a, b := bytes[0] as int, if |bytes| == 2 then bytes[1] as int else 0;
      Sextets(a, b, 0);
      DecodeShort(a / 4, a % 4 * 16 + b / 16, b % 16 * 4);
      assert bytes == if |bytes| == 1 then [bytes[0]] else [bytes[0], bytes[1]];
    } else {
      var a, b, c := bytes[0] as int, bytes[1] as int, bytes[2] as int;
      Sextets(a, b, c);
      GroupsRoundTrip(bytes[3..]);
      DecodeFour(a / 4, a % 4 * 16 + b / 16, b % 16 * 4 + c / 64, c % 64, Encode(bytes[3..]));
      assert bytes == [bytes[0], bytes[1], bytes[2]] + bytes[3..];
    }
  }

  lemma NothingToDecode()
    ensures DecodeGroups("") == Some([])
  {
  }

  ghost predicate AllInAlphabet(text: string) {
    forall i :: 0 <= i < |text| ==> InAlphabet(text[i])
  }

  /** A text can be decoded exactly when, without its line breaks, it is made of the alphabet and its
      last group does not stand alone. */
  lemma DecodesIff(text: string)
    ensures Decode(text).Some? <==> AllInAlphabet(WithoutBreaks(text)) && |WithoutBreaks(text)| % 4 != 1
  {
    GroupsDecodeIff(WithoutBreaks(text));
  }

  lemma {:induction false} GroupsDecodeIff(text: string)
    ensures DecodeGroups(text).Some? <==> AllInAlphabet(text) && |text| % 4 != 1
    decreases |text|
  {
    forall i | 0 <= i < |text| ensures Value(text[i]) == -1 <==> !InAlphabet(text[i]) {
      SymbolsAreAlphabet(0, text[i]);
    }
    hide Value;
    hide InAlphabet;
    if |text| >= 4 {
      GroupsDecodeIff(text[4..]);
      FirstFour(text);
    }
  }

  lemma FirstFour(text: string)
    requires |text| >= 4
    ensures AllInAlphabet(text) <==>
            InAlphabet(text[0]) && InAlphabet(text[1]) && InAlphabet(text[2]) && InAlphabet(text[3]) && AllInAlphabet(text[4..])
  {
    hide InAlphabet;
    if AllInAlphabet(text[4..]) {
      forall i | 4 <= i < |text| ensures InAlphabet(text[i]) {
        assert text[4..][i - 4] == text[i];
      }
    }
  }

  /** A line break makes no difference wherever it stands, and no other character is left out. */
  lemma {:induction false} BreaksDoNotMatter(before: string, c: char, after: string)
    ensures WithoutBreaks(before + [c] + after) ==
            WithoutBreaks(before) + (if c == '\n' || c == '\r' then "" else [c]) + WithoutBreaks(after)
    ensures c == '\n' || c == '\r' ==> Decode(before + [c] + after) == Decode(before + after)
  {
    WithoutBreaksAppend(before, after);
    WithoutBreaksAppend(before + [c], after);
    WithoutBreaksAppend(before, [c]);
    assert [c][1..] == "";
    assert WithoutBreaks([c]) == if c == '\n' || c == '\r' then "" else [c];
    if c == '\n' || c == '\r' {
      assert WithoutBreaks(before) + "" + WithoutBreaks(after) == WithoutBreaks(before) + WithoutBreaks(after);
    }
    hide WithoutBreaks;
    hide DecodeGroups;
  }

  lemma {:induction false} WithoutBreaksAppend(a: string, b: string)
    ensures WithoutBreaks(a + b) == WithoutBreaks(a) + WithoutBreaks(b)
  {
    if a == "" {
      assert a + b == b;
    } else {
      WithoutBreaksAppend(a[1..], b);
      assert (a + b)[1..] == a[1..] + b;
    }
  }

  /** Decoding an encoding gives the bytes back. */
  lemma RoundTrip(bytes: seq<byte>)
    ensures Decode(Encode(bytes)) == Some(bytes)
  {
    EncodingIsClean(bytes);
    NoBreaks(Encode(bytes));
    GroupsRoundTrip(bytes);
  }
}
