/**
 * The cache key: the query form written as a JSON object the way
 * `JsonSerializer.Serialize` writes a `Dictionary<string, string>` with the
 * default encoder, and a reader that gets the form back from it.
 */
module CacheKeys {
  import opened Wrappers
  import opened Dom

  const HexDigits := "0123456789ABCDEF"

  /** Characters the default encoder writes as themselves: printable ASCII other than the HTML-sensitive ones, the quote and the backslash. */
  predicate Plain(c: char) {
    ' ' <= c <= '~' && c !in "\"&'+<>`\\"
  }

  /** The letter of a two-character escape, for the characters that have one. */
  function ShortEscape(c: char): Option<char> {
    if c == '\\' then Some('\\')
    else if c == '\n' then Some('n')
    else if c == '\r' then Some('r')
    else if c == '\t' then Some('t')
    else if c == '\U{8}' then Some('b')
    else if c == '\U{C}' then Some('f')
    else None
  }

  /** The character a two-character escape stands for. */
  function ShortUnescape(e: char): Option<char> {
    if e == '\\' then Some('\\')
    else if e == 'n' then Some('\n')
    else if e == 'r' then Some('\r')
    else if e == 't' then Some('\t')
    else if e == 'b' then Some('\U{8}')
    else if e == 'f' then Some('\U{C}')
    else None
  }

  /** `\uXXXX` with upper-case hex digits. */
  function UEscape(n: nat): (r: string)
    requires n < 0x10000
    ensures |r| == 6 && r[0] == '\\' && r[1] == 'u'
    ensures '"' !in r
  {
    ['\\', 'u', HexDigits[n / 16 / 16 / 16], HexDigits[n / 16 / 16 % 16], HexDigits[n / 16 % 16], HexDigits[n % 16]]
  }

  /** How one character is written inside a JSON string. */
  function EscapeChar(c: char): (r: string)
    ensures r != [] && '"' !in r
  {
    if Plain(c) then [c]
    else if ShortEscape(c).Some? then ['\\', ShortEscape(c).value]
    else if c as int < 0x10000 then UEscape(c as int)
    else UEscape(High(c as int)) + UEscape(Low(c as int))
  }

  /** The high surrogate of a code point above U+FFFF. */
  function High(x: int): (h: nat)
    requires 0x10000 <= x < 0x110000
    ensures 0xD800 <= h < 0xDC00
  {
    0xD800 + (x - 0x10000) / 0x400
  }

  /** The low surrogate of a code point above U+FFFF. */
  function Low(x: int): (l: nat)
    requires 0x10000 <= x < 0x110000
    ensures 0xDC00 <= l < 0xE000
  {
    0xDC00 + (x - 0x10000) % 0x400
  }

  /** The code point a surrogate pair stands for. */
  function Combine(hi: nat, lo: nat): (x: int)
    requires 0xD800 <= hi < 0xDC00 && 0xDC00 <= lo < 0xE000
    ensures 0x10000 <= x < 0x110000
  {
    0x10000 + (hi - 0xD800) * 0x400 + (lo - 0xDC00)
  }

  /** Splitting a code point into surrogates and combining them gives it back. */
  lemma CombineSplit(x: int)
    requires 0x10000 <= x < 0x110000
    ensures Combine(High(x), Low(x)) == x
  {
  }

  /** A string's body as the serializer writes it: never shorter, and with no bare quote to end it early. */
  function Escape(s: string): (r: string)
    ensures |r| >= |s| && (r == [] <==> s == [])
    ensures '"' !in r
  {
    if s == [] then [] else EscapeChar(s[0]) + Escape(s[1..])
  }

  /** A JSON string literal: a quote at each end and none between them. */
  function Quote(s: string): (r: string)
    ensures |r| >= 2 && r[0] == '"' && r[|r| - 1] == '"'
    ensures forall i :: 0 < i < |r| - 1 ==> r[i] != '"'
  {
    "\"" + Escape(s) + "\""
  }

  /** One `"key":"value"` pair: it opens and closes with a quote, and the key's closing quote is followed by the colon. */
  function Member(e: (string, string)): (r: string)
    ensures |r| >= 5 && r[0] == '"' && r[|r| - 1] == '"'
    ensures |Quote(e.0)| < |r| && r[|Quote(e.0)| - 1] == '"' && r[|Quote(e.0)|] == ':'
  {
    Quote(e.0) + ":" + Quote(e.1)
  }

  /** The pairs, comma-separated: empty exactly for the empty form, and otherwise a run that opens and closes with a quote. */
  function Members(m: Entries): (r: string)
    ensures r == [] <==> m == []
    ensures r != [] ==> r[0] == '"' && r[|r| - 1] == '"'
  {
    if m == [] then []
    else if |m| == 1 then Member(m[0])
    else Member(m[0]) + "," + Members(m[1..])
  }

  /** `JsonSerializer.Serialize(form)`: the entries in enumeration order, with no white space, between braces. */
  function CacheKey(form: Entries): (r: string)
    ensures |r| >= 2 && r[0] == '{' && r[|r| - 1] == '}'
    ensures r == "{}" <==> form == []
  {
    "{" + Members(form) + "}"
  }

  /** The value of a hex digit, or -1. */
  function HexValue(c: char): (d: int)
    ensures -1 <= d < 16
  {
    if '0' <= c <= '9' then c as int - '0' as int
    else if 'A' <= c <= 'F' then c as int - 'A' as int + 10
    else -1
  }

  /** The value of four hex digits. */
  function Hex4(s: string): (r: Option<nat>)
    requires |s| == 4
    ensures r.Some? ==> r.value < 0x10000
  {
    var a, b, c, d := HexValue(s[0]), HexValue(s[1]), HexValue(s[2]), HexValue(s[3]);
    if a < 0 || b < 0 || c < 0 || d < 0 then None else Some(((a * 16 + b) * 16 + c) * 16 + d)
  }

  /** A decoded character put in front of what the rest of a string literal decodes to. */
  function Prepend(c: char, r: Option<(string, string)>): Option<(string, string)> {
    match r
    case Some((d, rest)) => Some(([c] + d, rest))
    case None => None
  }

  /** The character the escape or plain character at the start of `s` stands for, and how many characters it takes. */
  function NextChar(s: string): (r: Option<(char, nat)>)
    requires s != []
    ensures r.Some? ==> 0 < r.value.1 <= |s|
  {
    if s[0] != '\\' then Some((s[0], 1))
    else if |s| >= 2 && ShortUnescape(s[1]).Some? then Some((ShortUnescape(s[1]).value, 2))
    else if |s| >= 6 && s[1] == 'u' && Hex4(s[2..6]).Some? then
      var n := Hex4(s[2..6]).value;
      if n < 0xD800 || 0xE000 <= n then Some((n as char, 6))
      else if n < 0xDC00 && |s| >= 12 && s[6] == '\\' && s[7] == 'u' && Hex4(s[8..12]).Some? then
        var lo := Hex4(s[8..12]).value;
        if 0xDC00 <= lo < 0xE000 then Some((Combine(n, lo) as char, 12))
        else None
      else None
    else None
  }

  /** Reads a string literal's body up to its closing quote: what it stands for, and what follows the quote. */
  function ReadString(s: string): (r: Option<(string, string)>)
    ensures r.Some? ==> |r.value.1| < |s|
    decreases |s|
  {
    if s == [] then None
    else if s[0] == '"' then Some(([], s[1..]))
    else match NextChar(s)
      case None => None
      case Some((c, n)) => Prepend(c, ReadString(s[n..]))
  }

  /** Reads `"key":"value"` pairs separated by commas, up to the closing brace. */
  function ReadMembers(s: string): (r: Option<Entries>)
    decreases |s|
  {
    if s == [] || s[0] != '"' then None
    else match ReadString(s[1..])
      case None => None
      case Some((k, r1)) =>
        if |r1| < 2 || r1[0] != ':' || r1[1] != '"' then None
        else match ReadString(r1[2..])
          case None => None
          case Some((v, r2)) =>
            if r2 == "}" then Some([(k, v)])
            else if r2 != [] && r2[0] == ',' then
              match ReadMembers(r2[1..])
              case Some(m) => Some([(k, v)] + m)
              case None => None
            else None
  }

  /** Reads a serialised form back. */
  function ReadKey(s: string): Option<Entries> {
    if s == "{}" then Some([])
    else if s != [] && s[0] == '{' then ReadMembers(s[1..])
    else None
  }

  lemma HexDigitValue(d: nat)
    requires d < 16
    ensures HexValue(HexDigits[d]) == d
  {
  }

  lemma ConcatAssoc(a: string, b: string, c: string)
    ensures a + b + c == a + (b + c)
  {
  }

  lemma Concat4(a: string, b: string, c: string, d: string)
    ensures a + b + c + d == a + (b + c + d)
  {
  }

  lemma DropFirst(a: string, b: string)
    requires |a| == 1
    ensures (a + b)[1..] == b
  {
  }

  /** Four hex digits read back to the number written. */
  lemma UEscapeRead(n: nat)
    requires n < 0x10000
    ensures Hex4(UEscape(n)[2..6]) == Some(n)
  {
    var s := UEscape(n)[2..6];
    var q1 := n / 16;
    var q2 := q1 / 16;
    HexDigitValue(q2 / 16);
    HexDigitValue(q2 % 16);
    HexDigitValue(q1 % 16);
    HexDigitValue(n % 16);
    assert s[0] == HexDigits[q2 / 16] && s[1] == HexDigits[q2 % 16];
    assert s[2] == HexDigits[q1 % 16] && s[3] == HexDigits[n % 16];
    assert n == ((q2 / 16 * 16 + q2 % 16) * 16 + q1 % 16) * 16 + n % 16;
  }

  /** A character written as itself reads back as itself. */
  lemma PlainNext(c: char, t: string)
    requires Plain(c)
    ensures EscapeChar(c) + t != [] && NextChar(EscapeChar(c) + t) == Some((c, |EscapeChar(c)|))
  {
    assert EscapeChar(c) == [c];
  }

  /** A two-character escape reads back as the character it stands for. */
  lemma ShortNext(c: char, t: string)
    requires !Plain(c) && ShortEscape(c).Some?
    ensures EscapeChar(c) + t != [] && NextChar(EscapeChar(c) + t) == Some((c, |EscapeChar(c)|))
  {
    var s := EscapeChar(c) + t;
    assert EscapeChar(c) == ['\\', ShortEscape(c).value];
    assert s[0] == '\\' && ShortUnescape(s[1]) == Some(c);
  }

  /** A `\uXXXX` escape in front of any text: its marker, then the number it was written from, then that text. */
  lemma UEscapeHead(n: nat, t: string)
    requires n < 0x10000
    ensures var s := UEscape(n) + t;
      |s| >= 6 && s[0] == '\\' && s[1] == 'u' && Hex4(s[2..6]) == Some(n) && s[6..] == t
  {
    UEscapeRead(n);
    assert (UEscape(n) + t)[2..6] == UEscape(n)[2..6];
    assert (UEscape(n) + t)[6..] == t;
  }

  /** A `\uXXXX` escape of a character below U+10000 reads back as it. */
  lemma BmpNext(c: char, t: string)
    requires !Plain(c) && ShortEscape(c).None? && c as int < 0x10000
    ensures EscapeChar(c) + t != [] && NextChar(EscapeChar(c) + t) == Some((c, |EscapeChar(c)|))
  {
    var n := c as int;
    assert EscapeChar(c) == UEscape(n);
    UEscapeHead(n, t);
    assert ShortUnescape('u').None?;
    assert n as char == c;
  }

  /** A surrogate pair of escapes reads back as the character above U+FFFF it encodes. */
  lemma AstralPairNext(hi: nat, lo: nat, t: string)
    requires 0xD800 <= hi < 0xDC00 && 0xDC00 <= lo < 0xE000
    ensures NextChar(UEscape(hi) + UEscape(lo) + t) == Some((Combine(hi, lo) as char, 12))
  {
    var s := UEscape(hi) + UEscape(lo) + t;
    var rest := UEscape(lo) + t;
    ConcatAssoc(UEscape(hi), UEscape(lo), t);
    UEscapeHead(hi, rest);
    UEscapeHead(lo, t);
    assert s[6] == rest[0] && s[7] == rest[1];
    assert s[8..12] == rest[2..6];
    PairAt(s, hi, lo);
  }

  /** Two `\uXXXX` escapes holding a high and a low surrogate read as the one character they combine to. */
  lemma PairAt(s: string, hi: nat, lo: nat)
    requires 0xD800 <= hi < 0xDC00 && 0xDC00 <= lo < 0xE000
    requires |s| >= 12 && s[0] == '\\' && s[1] == 'u' && s[6] == '\\' && s[7] == 'u'
    requires Hex4(s[2..6]) == Some(hi) && Hex4(s[8..12]) == Some(lo)
    ensures NextChar(s) == Some((Combine(hi, lo) as char, 12))
  {
    assert ShortUnescape('u').None?;
  }

  /** A character above U+FFFF is written as the escapes of its surrogate pair, and reads back as itself. */
  lemma AstralNext(c: char, t: string)
    requires c as int >= 0x10000
    ensures EscapeChar(c) + t != [] && NextChar(EscapeChar(c) + t) == Some((c, |EscapeChar(c)|))
  {
    assert !Plain(c) && ShortEscape(c).None?;
    assert EscapeChar(c) == UEscape(High(c as int)) + UEscape(Low(c as int));
    AstralPairNext(High(c as int), Low(c as int), t);
    CombineSplit(c as int);
  }

  /** One escaped character is read back as that character, taking exactly its escape. */
  lemma EscapeCharNext(c: char, t: string)
    ensures EscapeChar(c) + t != []
    ensures NextChar(EscapeChar(c) + t) == Some((c, |EscapeChar(c)|))
  {
    if Plain(c) {
      PlainNext(c, t);
    } else if ShortEscape(c).Some? {
      ShortNext(c, t);
    } else if c as int < 0x10000 {
      BmpNext(c, t);
    } else {
      AstralNext(c, t);
    }
  }

  /** One escaped character reads back as that character. */
  lemma EscapeCharRead(c: char, t: string)
    ensures ReadString(EscapeChar(c) + t) == Prepend(c, ReadString(t))
  {
    var s := EscapeChar(c) + t;
    EscapeCharNext(c, t);
    assert s[|EscapeChar(c)|..] == t;
  }

  /** A string literal's body reads back as the string, leaving what follows the closing quote. */
  lemma {:induction false} EscapeRead(x: string, rest: string)
    ensures ReadString(Escape(x) + "\"" + rest) == Some((x, rest))
    decreases |x|
  {
    if x == [] {
      assert Escape(x) + "\"" + rest == "\"" + rest;
    } else {
      var t := Escape(x[1..]) + "\"" + rest;
      assert Escape(x) == EscapeChar(x[0]) + Escape(x[1..]);
      Concat4(EscapeChar(x[0]), Escape(x[1..]), "\"", rest);
      EscapeCharRead(x[0], t);
      EscapeRead(x[1..], rest);
      assert [x[0]] + x[1..] == x;
    }
  }

  /** A string literal reads back as the string, leaving what follows it. */
  lemma QuotedRead(x: string, rest: string)
    ensures Quote(x) + rest != [] && (Quote(x) + rest)[0] == '"'
    ensures ReadString((Quote(x) + rest)[1..]) == Some((x, rest))
  {
    assert (Quote(x) + rest)[1..] == Escape(x) + "\"" + rest;
    EscapeRead(x, rest);
  }

  /** One `"key":"value"` pair reads back as its key, then its value, leaving what follows. */
  lemma PairRead(k: string, v: string, tail: string)
    ensures Member((k, v)) + tail != [] && (Member((k, v)) + tail)[0] == '"'
    ensures ReadString((Member((k, v)) + tail)[1..]) == Some((k, ":" + Quote(v) + tail))
    ensures |":" + Quote(v) + tail| >= 2 && (":" + Quote(v) + tail)[0] == ':' && (":" + Quote(v) + tail)[1] == '"'
    ensures ReadString((":" + Quote(v) + tail)[2..]) == Some((v, tail))
  {
    var r1 := ":" + Quote(v) + tail;
    Concat4(Quote(k), ":", Quote(v), tail);
    QuotedRead(k, r1);
    ConcatAssoc(":", Quote(v), tail);
    DropFirst(":", Quote(v) + tail);
    QuotedRead(v, tail);
  }

  /** How `ReadMembers` goes on once a key, a colon and a value have been read. */
  lemma ReadMembersStep(s: string, k: string, r1: string, v: string, r2: string)
    requires s != [] && s[0] == '"' && ReadString(s[1..]) == Some((k, r1))
    requires |r1| >= 2 && r1[0] == ':' && r1[1] == '"' && ReadString(r1[2..]) == Some((v, r2))
    ensures r2 == "}" ==> ReadMembers(s) == Some([(k, v)])
    ensures r2 != [] && r2[0] == ',' && ReadMembers(r2[1..]).Some? ==>
      ReadMembers(s) == Some([(k, v)] + ReadMembers(r2[1..]).value)
  {
  }

  /** The last pair reads back, up to the closing brace. */
  lemma LastMemberRead(e: (string, string))
    ensures ReadMembers(Member(e) + "}") == Some([e])
  {
    PairRead(e.0, e.1, "}");
    ReadMembersStep(Member(e) + "}", e.0, ":" + Quote(e.1) + "}", e.1, "}");
  }

  /** A pair followed by a comma reads back in front of what the rest reads back as. */
  lemma MoreMembersRead(e: (string, string), rest: string, m: Entries)
    requires ReadMembers(rest) == Some(m)
    ensures ReadMembers(Member(e) + "," + rest) == Some([e] + m)
  {
    var tail := "," + rest;
    var s := Member(e) + tail;
    PairRead(e.0, e.1, tail);
    assert tail[1..] == rest;
    ReadMembersStep(s, e.0, ":" + Quote(e.1) + tail, e.1, tail);
    ConcatAssoc(Member(e), ",", rest);
  }

  /** The members of a nonempty form read back as the form. */
  lemma {:induction false} MembersRead(m: Entries)
    requires m != []
    ensures ReadMembers(Members(m) + "}") == Some(m)
    decreases |m|
  {
    if |m| == 1 {
      LastMemberRead(m[0]);
      assert m == [m[0]];
    } else {
      MembersRead(m[1..]);
      MoreMembersRead(m[0], Members(m[1..]) + "}", m[1..]);
      ConcatAssoc(Member(m[0]) + ",", Members(m[1..]), "}");
      assert [m[0]] + m[1..] == m;
    }
  }

  /** Reading a key gives back the form it was made from. */
  lemma CacheKeyRead(form: Entries)
    ensures ReadKey(CacheKey(form)) == Some(form)
  {
    if form != [] {
      var s := CacheKey(form);
      ConcatAssoc("{", Members(form), "}");
      DropFirst("{", Members(form) + "}");
      assert s[1] == '"';
      MembersRead(form);
    }
  }

  /** Distinct forms never share a cache entry. */
  lemma CacheKeyInjective(a: Entries, b: Entries)
    ensures CacheKey(a) == CacheKey(b) ==> a == b
  {
    CacheKeyRead(a);
    CacheKeyRead(b);
  }
}
