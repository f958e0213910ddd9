/** Escaping the special characters of XML into a buffer of limited length. */
module Escaper {

  datatype Binding = Binding(specialChar: char, replacement: string)

  const BINDINGS: seq<Binding> := [Binding('&', "&amp;"), Binding('>', "&gt;"), Binding('<', "&lt;")]

  predicate IsSpecial(c: char) {
    c == '&' || c == '>' || c == '<'
  }

  /** What stands for a character in escaped text. */
  function Escape(c: char): (e: string)
    ensures |e| > 0
  {
    match c
    case '&' => "&amp;"
    case '>' => "&gt;"
    case '<' => "&lt;"
    case _ => [c]
  }

  function Escaped(s: string): string {
    if s == "" then "" else Escaped(s[..|s| - 1]) + Escape(s[|s| - 1])
  }

  /** How many special characters there are. */
  function Specials(s: string): nat {
    if s == "" then 0 else Specials(s[..|s| - 1]) + if IsSpecial(s[|s| - 1]) then 1 else 0
  }

  /** The special characters are those that the escape changes. */
  lemma SpecialsChange(c: char)
    ensures IsSpecial(c) <==> Escape(c) != [c]
    ensures IsSpecial(c) ==> |Escape(c)| > 1
  {
    assert [c][0] == c;
  }

  /** Where the escape changes a text. */
  ghost function ChangedAt(s: string): set<nat> {
    set i: nat | i < |s| && Escape(s[i]) != [s[i]]
  }

  lemma ChangedSnoc(s: string, c: char)
    ensures ChangedAt(s + [c]) == if Escape(c) != [c] then ChangedAt(s) + {|s|} else ChangedAt(s)
    ensures |s| !in ChangedAt(s)
  {
    hide Escape;
    forall i: nat ensures i in ChangedAt(s + [c]) <==> (i == |s| && Escape(c) != [c]) || i in ChangedAt(s) {
      assert i < |s| ==> (s + [c])[i] == s[i];
    }
  }

  /** The number of special characters is that of the positions that the escape changes: it is 0 if and only if the
      text comes out as it is. */
  lemma {:induction false} SpecialsCounted(s: string)
    ensures Specials(s) == |ChangedAt(s)|
    ensures |Escaped(s)| >= |s| + Specials(s)
    ensures Specials(s) == 0 <==> Escaped(s) == s
  {
    hide Escape, IsSpecial;
    if s == "" {
      assert ChangedAt(s) == {};
    } else {
      hide ChangedAt;
      var front, c := s[..|s| - 1], s[|s| - 1];
      assert s == front + [c];
      SpecialsCounted(front);
      SpecialsChange(c);
      ChangedSnoc(front, c);
    }
  }

  /** The predefined entities of section 4.6 of XML 1.0. */
  const ENTITIES: seq<Binding> := [Binding('<', "&lt;"), Binding('>', "&gt;"), Binding('&', "&amp;"),
      Binding('\'', "&apos;"), Binding('\"', "&quot;")]

  /** The first of the predefined entities, from the `k`-th on, that `s` starts with. */
  function EntityAt(s: string, k: nat): (i: nat)
    requires k <= |ENTITIES|
    ensures i < |ENTITIES| ==> ENTITIES[i].replacement <= s
    decreases |ENTITIES| - k
  {
    if k == |ENTITIES| || ENTITIES[k].replacement <= s then k else EntityAt(s, k + 1)
  }

  /** Text with its predefined entities decoded. */
  function Decode(s: string): string
    decreases |s|
  {
    if s == "" then ""
    else
      var i := EntityAt(s, 0);
      if i < |ENTITIES| then [ENTITIES[i].specialChar] + Decode(s[|ENTITIES[i].replacement|..])
      else [s[0]] + Decode(s[1..])
  }

  /** Every entity begins with an ampersand. */
  lemma {:induction false} NoEntity(s: string, k: nat)
    requires s != "" && s[0] != '&' && k <= |ENTITIES|
    ensures EntityAt(s, k) == |ENTITIES|
    decreases |ENTITIES| - k
  {
    if k < |ENTITIES| {
      assert ENTITIES[k].replacement[0] == '&';
      NoEntity(s, k + 1);
    }
  }

  /** Decoding what stands for a character gives the character, whatever follows. */
  lemma DecodeFirst(c: char, rest: string)
    ensures Decode(Escape(c) + rest) == [c] + Decode(rest)
  {
    var s := Escape(c) + rest;
    if IsSpecial(c) {
      assert s[..|Escape(c)|] == Escape(c) && s[|Escape(c)|..] == rest;
      assert s[0] == '&' && s[1] == Escape(c)[1];
      if c == '&' {
        assert EntityAt(s, 2) == 2;
        assert EntityAt(s, 0) == EntityAt(s, 1) == EntityAt(s, 2);
      } else if c == '>' {
        assert EntityAt(s, 1) == 1;
        assert EntityAt(s, 0) == EntityAt(s, 1);
      }
    } else {
      assert s[0] == c && s[1..] == rest;
      NoEntity(s, 0);
    }
  }

  /** Decoding undoes escaping. */
  lemma {:induction false} DecodeEscaped(s: string, rest: string)
    ensures Decode(Escaped(s) + rest) == s + Decode(rest)
  {
    hide Decode, Escape;
    if s == "" {
      Prefixed("", rest);
      Prefixed("", Decode(rest));
    } else {
      var front, c := s[..|s| - 1], s[|s| - 1];
      Regroup(Escaped(front), Escape(c), rest);
      DecodeEscaped(front, Escape(c) + rest);
      DecodeFirst(c, rest);
      Regroup(front, [c], Decode(rest));
      assert s == front + [c];
    }
  }

  lemma Prefixed(a: string, b: string)
    ensures a == "" ==> a + b == b
  {
  }

  lemma Regroup(a: string, b: string, c: string)
    ensures a + b + c == a + (b + c)
  {
  }

  lemma RoundTrip(s: string)
    ensures Decode(Escaped(s)) == s
  {
    DecodeEscaped(s, "");
    assert Escaped(s) + "" == Escaped(s) && s + "" == s;
  }

  /** Different texts are escaped differently. */
  lemma EscapedInjective(s: string, t: string)
    requires Escaped(s) == Escaped(t)
    ensures s == t
  {
    RoundTrip(s);
    RoundTrip(t);
  }

  lemma StillBegins(a: string, b: string, k: nat, e: string)
    requires k < |a|
    ensures (a + b)[k] == a[k] && (e <= a[k..] ==> e <= (a + b)[k..])
  {
    assert (a + b)[k..] == a[k..] + b;
  }

  /** So does one that begins in the text behind. */
  lemma BeginsBehind(a: string, b: string, k: nat, e: string)
    requires |a| <= k < |a| + |b|
    ensures (a + b)[k] == b[k - |a|] && (e <= b[k - |a|..] ==> e <= (a + b)[k..])
  {
    assert (a + b)[k..] == b[k - |a|..];
  }

  lemma EscapeIsText(c: char, k: nat)
    requires k < |Escape(c)|
    ensures Escape(c)[k] != '<' && Escape(c)[k] != '>'
    ensures Escape(c)[k] == '&' ==>
              "&amp;" <= Escape(c)[k..] || "&gt;" <= Escape(c)[k..] || "&lt;" <= Escape(c)[k..]
  {
    assert k == 0 ==> Escape(c)[k..] == Escape(c);
  }

  /** Escaped text has no angle brackets, and its ampersands all begin one of the three entities. */
  lemma {:induction false} EscapedIsText(s: string, k: nat)
    requires k < |Escaped(s)|
    ensures Escaped(s)[k] != '<' && Escaped(s)[k] != '>'
    ensures Escaped(s)[k] == '&' ==>
              "&amp;" <= Escaped(s)[k..] || "&gt;" <= Escaped(s)[k..] || "&lt;" <= Escaped(s)[k..]
  {
    hide Escape;
    var front, last := Escaped(s[..|s| - 1]), Escape(s[|s| - 1]);
    if k < |front| {
      EscapedIsText(s[..|s| - 1], k);
      StillBegins(front, last, k, "&amp;");
      StillBegins(front, last, k, "&gt;");
      StillBegins(front, last, k, "&lt;");
    } else {
      EscapeIsText(s[|s| - 1], k - |front|);
      BeginsBehind(front, last, k, "&amp;");
      BeginsBehind(front, last, k, "&gt;");
      BeginsBehind(front, last, k, "&lt;");
    }
  }

  lemma {:induction false} EscapedLonger(s: string, i: nat)
    requires i <= |s|
    ensures |Escaped(s[..i])| <= |Escaped(s)|
    ensures i < |s| ==> |Escaped(s[..i])| + |Escape(s[i])| <= |Escaped(s)|
    decreases |s|
  {
    if i < |s| {
      EscapedLonger(s[..|s| - 1], i);
      if i < |s| - 1 {
        assert s[..|s| - 1][..i] == s[..i];
      }
    } else {
      assert s[..i] == s;
    }
  }

  lemma EscapedSnoc(s: string, i: nat)
    requires i < |s|
    ensures Escaped(s[..i + 1]) == Escaped(s[..i]) + Escape(s[i]) && (!IsSpecial(s[i]) ==> Escape(s[i]) == [s[i]])
    ensures Specials(s[..i + 1]) == Specials(s[..i]) + if IsSpecial(s[i]) then 1 else 0
  {
    assert s[..i + 1][..i] == s[..i];
  }

  lemma EscapedNothing(s: string)
    ensures Escaped(s[..0]) == "" && Specials(s[..0]) == 0
    ensures s[..|s|] == s
  {
  }

  /** The index of a character in the table of bindings, or -1. */
  method GetIndex(ch: char) returns (index: int)
    ensures -1 <= index < |BINDINGS|
    ensures index == -1 <==> !IsSpecial(ch)
    ensures index == -1 <==> Escape(ch) == [ch]
    ensures index >= 0 ==> BINDINGS[index].specialChar == ch && BINDINGS[index].replacement == Escape(ch)
  {
    var counter := 0;
    while counter < |BINDINGS| && BINDINGS[counter].specialChar != ch
      invariant 0 <= counter <= |BINDINGS|
      invariant forall i :: 0 <= i < counter ==> BINDINGS[i].specialChar != ch
    {
      counter := counter + 1;
    }
    index := if counter < |BINDINGS| then counter else -1;
    SpecialsChange(ch);
    if index == -1 {
      assert BINDINGS[0].specialChar != ch && BINDINGS[1].specialChar != ch && BINDINGS[2].specialChar != ch;
    }
  }

  /** The length that a text has when it is escaped. */
  method TranslatedStrlen(src: string) returns (count: nat)
    ensures count == |Escaped(src)|
  {
    count := 0;
    for i := 0 to |src|
      invariant count == |Escaped(src[..i])|
    {
      assert src[..i + 1][..i] == src[..i];
      var index := GetIndex(src[i]);
      count := count + if index != -1 then |BINDINGS[index].replacement| else 1;
    }
    assert src[..|src|] == src;
  }

  /** Escapes a text into the first `maxlen` characters of a buffer, with a NUL behind it. Without enough room the
      buffer is left with the empty string. Answers how many special characters were replaced. */
  method TranslateSpecialCharacters(src: string, dest: array<char>, maxlen: nat) returns (count: nat)
    requires maxlen <= dest.Length
    modifies dest
    ensures forall k :: maxlen <= k < dest.Length ==> dest[k] == old(dest[k])
    ensures maxlen == 0 ==> count == 0
    ensures |Escaped(src)| < maxlen ==> dest[..|Escaped(src)| + 1] == Escaped(src) + ['\0'] && count == Specials(src)
    ensures |Escaped(src)| < maxlen ==> count == |ChangedAt(src)| && (count == 0 <==> Escaped(src) == src)
    ensures 0 < maxlen <= |Escaped(src)| ==> dest[0] == '\0' && count == 0
  {
    hide Escaped, Escape, Specials, ChangedAt;
    SpecialsCounted(src);
    count := 0;
    if maxlen == 0 {
      return;
    }
    EscapedNothing(src);
    var room, at, i := maxlen, 0, 0;
    while room > 0 && i < |src|
      invariant 0 <= i <= |src| && 0 <= room && at + room == maxlen
      invariant at == |Escaped(src[..i])| && dest[..at] == Escaped(src[..i]) && count == Specials(src[..i])
      invariant forall k :: maxlen <= k < dest.Length ==> dest[k] == old(dest[k])
    {
      EscapedSnoc(src, i);
      EscapedLonger(src, i);
      var index := GetIndex(src[i]);
      if index != -1 {
        var replacement := BINDINGS[index].replacement;
        if room > |replacement| {
          CopyInto(replacement, dest, at);
          at := at + |replacement|;
          room := room - |replacement|;
          count := count + 1;
        } else {
          room := 0;
          break;
        }
      } else {
        dest[at] := src[i];
        at := at + 1;
        room := room - 1;
      }
      i := i + 1;
    }
    EscapedLonger(src, i);
    assert i == |src| ==> src[..i] == src;
    if room == 0 {
      dest[0] := '\0';
      count := 0;
    } else {
      dest[at] := '\0';
    }
  }

  method CopyInto(s: string, dest: array<char>, at: nat)
    requires at + |s| <= dest.Length
    modifies dest
    ensures dest[..] == old(dest[..at]) + s + old(dest[at + |s|..])
  {
    for k := 0 to |s|
      invariant dest[..at] == old(dest[..at]) && dest[at..at + k] == s[..k]
      invariant forall i :: at + k <= i < dest.Length ==> dest[i] == old(dest[i])
    {
      dest[at + k] := s[k];
    }
  }
}
