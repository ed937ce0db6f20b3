/** The few Python string operations the core relies on: `str.lower`,
    `str.split(sep)`, `sep.join(parts)`, `str.replace(c, "")`, decimal
    formatting of integers in f-strings and UTF-8 text encoding. */
module Text {

  import opened Wrappers

  // ---------------------------------------------------------------- lower

  /** `str.lower` on one character; only ASCII letters are mapped. */
  function LowerChar(c: char): (r: char)
    ensures 'A' <= c <= 'Z' ==> r as int == c as int + 32
    ensures !('A' <= c <= 'Z') ==> r == c
  {
    if 'A' <= c <= 'Z' then (c as int + 32) as char else c
  }

  /** `str.lower`, restricted to the ASCII case mapping. */
  function Lower(s: string): (r: string)
    ensures |r| == |s|
    ensures forall i :: 0 <= i < |s| ==> r[i] == LowerChar(s[i])
  {
    seq(|s|, i requires 0 <= i < |s| => LowerChar(s[i]))
  }

  // ---------------------------------------------------------------- split and join

  /** `sep` occurs in `s` starting at index `i`. */
  predicate OccursAt(s: string, sep: string, i: nat) {
    i + |sep| <= |s| && s[i..i + |sep|] == sep
  }

  /** The first index at or after `from` where `sep` occurs (`str.find`). */
  function FindFrom(s: string, sep: string, from: nat): (r: Option<nat>)
    requires |sep| > 0
    ensures r.Some? ==> from <= r.value && OccursAt(s, sep, r.value)
    ensures r.Some? ==> forall j :: from <= j < r.value ==> !OccursAt(s, sep, j)
    ensures r.None? ==> forall j :: from <= j ==> !OccursAt(s, sep, j)
    decreases |s| - from
  {
    if from + |sep| > |s| then None
    else if s[from..from + |sep|] == sep then Some(from)
    else FindFrom(s, sep, from + 1)
  }

  /** `s.split(sep)`: the pieces between the non-overlapping occurrences of
      `sep`, found left to right. */
  function Split(s: string, sep: string): (r: seq<string>)
    requires |sep| > 0
    ensures |r| >= 1
    decreases |s|
  {
    match FindFrom(s, sep, 0)
    case None => [s]
    case Some(i) => [s[..i]] + Split(s[i + |sep|..], sep)
  }

  /** `sep.join(parts)`. */
  function Join(parts: seq<string>, sep: string): string
    decreases |parts|
  {
    if |parts| == 0 then ""
    else if |parts| == 1 then parts[0]
    else parts[0] + sep + Join(parts[1..], sep)
  }

  /** Joining the pieces of a split with the same separator gives back the
      original string. */
  lemma {:induction false} JoinSplit(s: string, sep: string)
    requires |sep| > 0
    ensures Join(Split(s, sep), sep) == s
    decreases |s|
  {
    match FindFrom(s, sep, 0)
    case None =>
    case Some(i) =>
      var rest := s[i + |sep|..];
      var tail := Split(rest, sep);
      JoinSplit(rest, sep);
      var parts := [s[..i]] + tail;
      assert Split(s, sep) == parts;
      assert parts[1..] == tail;
      assert Join(parts, sep) == s[..i] + sep + Join(tail, sep);
      assert s[i..i + |sep|] == sep;
      assert s == s[..i] + s[i..i + |sep|] + rest;
  }

  /** No piece of a split contains the separator: a split never cuts a piece
      in the middle of a separator nor leaves one inside. */
  lemma {:induction false} SplitPiecesHaveNoSeparator(s: string, sep: string, k: nat, j: nat)
    requires |sep| > 0
    requires k < |Split(s, sep)|
    ensures !OccursAt(Split(s, sep)[k], sep, j)
    decreases |s|
  {
    match FindFrom(s, sep, 0)
    case None =>
    case Some(i) =>
      if k == 0 {
        var piece := s[..i];
        if OccursAt(piece, sep, j) {
          assert s[j..j + |sep|] == piece[j..j + |sep|];
          assert OccursAt(s, sep, j);
          assert false;
        }
      } else {
        SplitPiecesHaveNoSeparator(s[i + |sep|..], sep, k - 1, j);
      }
  }

  /** Joining two non-empty runs of parts puts one separator between them. */
  lemma {:induction false} JoinAppend(a: seq<string>, b: seq<string>, sep: string)
    requires |a| > 0 && |b| > 0
    ensures Join(a + b, sep) == Join(a, sep) + sep + Join(b, sep)
    decreases |a|
  {
    if |a| == 1 {
      assert (a + b)[1..] == b;
    } else {
      JoinAppend(a[1..], b, sep);
      assert (a + b)[1..] == a[1..] + b;
    }
  }

  // ---------------------------------------------------------------- replace

  /** `s.replace(c, "")`: every occurrence of `c` removed, the rest kept in order. */
  function RemoveChar(s: string, c: char): string {
    if s == [] then []
    else (if s[0] == c then [] else [s[0]]) + RemoveChar(s[1..], c)
  }

  /** The characters of `s` that are not in `drop`, in order. */
  function Without(s: string, drop: set<char>): string {
    if s == [] then []
    else (if s[0] in drop then [] else [s[0]]) + Without(s[1..], drop)
  }

  /** Removing one character after filtering a set of others is filtering by
      the union of the two. */
  lemma {:induction false} RemoveCharAfterWithout(s: string, drop: set<char>, c: char)
    ensures RemoveChar(Without(s, drop), c) == Without(s, drop + {c})
  {
    if s != [] {
      RemoveCharAfterWithout(s[1..], drop, c);
      var head := if s[0] in drop then [] else [s[0]];
      RemoveCharDistributes(head, Without(s[1..], drop), c);
    }
  }

  lemma {:induction false} RemoveCharDistributes(a: string, b: string, c: char)
    ensures RemoveChar(a + b, c) == RemoveChar(a, c) + RemoveChar(b, c)
  {
    if a != [] {
      assert (a + b)[1..] == a[1..] + b;
      RemoveCharDistributes(a[1..], b, c);
    } else {
      assert a + b == b;
    }
  }

  lemma {:induction false} WithoutEmpty(s: string)
    ensures Without(s, {}) == s
  {
    if s != [] {
      WithoutEmpty(s[1..]);
    }
  }

  /** What `Without` keeps: no dropped character is left, and a character
      outside `drop` survives exactly as often as in the input. */
  lemma {:induction false} WithoutKeeps(s: string, drop: set<char>)
    ensures forall i :: 0 <= i < |Without(s, drop)| ==> Without(s, drop)[i] !in drop
    ensures forall x :: x !in drop ==> multiset(Without(s, drop))[x] == multiset(s)[x]
  {
    if s != [] {
      WithoutKeeps(s[1..], drop);
      var head := if s[0] in drop then [] else [s[0]];
      assert Without(s, drop) == head + Without(s[1..], drop);
      assert s == [s[0]] + s[1..];
    }
  }

  // ---------------------------------------------------------------- decimal

  function DigitChar(d: nat): char
    requires d < 10
  {
    "0123456789"[d]
  }

  function DigitValue(c: char): nat {
    if '0' <= c <= '9' then c as int - '0' as int else 0
  }

  /** `f"{n}"` for a non-negative integer. */
  function NatToString(n: nat): string
    decreases n
  {
    if n < 10 then [DigitChar(n)] else NatToString(n / 10) + [DigitChar(n % 10)]
  }

  /** `int(s)` for a string of decimal digits. */
  function ParseDecimal(s: string): nat
    decreases |s|
  {
    if s == [] then 0 else ParseDecimal(s[..|s| - 1]) * 10 + DigitValue(s[|s| - 1])
  }

  lemma {:induction false} ParseNatToString(n: nat)
    ensures ParseDecimal(NatToString(n)) == n
    decreases n
  {
    if n >= 10 {
      var s := NatToString(n);
      ParseNatToString(n / 10);
      assert s[..|s| - 1] == NatToString(n / 10);
    }
  }

  /** The decimal rendering has only digits and no leading zero. */
  lemma {:induction false} NatToStringShape(n: nat)
    ensures |NatToString(n)| >= 1
    ensures forall i :: 0 <= i < |NatToString(n)| ==> '0' <= NatToString(n)[i] <= '9'
    ensures (NatToString(n)[0] == '0') <==> n == 0
    decreases n
  {
    if n >= 10 {
      NatToStringShape(n / 10);
    }
  }

  // ---------------------------------------------------------------- UTF-8

  newtype byte = x: int | 0 <= x < 256

  /** The UTF-8 encoding of one Unicode scalar value. */
  function Utf8Char(c: char): (r: seq<byte>)
    ensures 1 <= |r| <= 4
    ensures (c as int < 0x80) <==> |r| == 1
  {
    var n := c as int;
    if n < 0x80 then [n as byte]
    else if n < 0x800 then [(0xC0 + n / 64) as byte, (0x80 + n % 64) as byte]
    else if n < 0x10000 then
      [(0xE0 + n / 4096) as byte, (0x80 + (n / 64) % 64) as byte, (0x80 + n % 64) as byte]
    else
      [(0xF0 + n / 262144) as byte, (0x80 + (n / 4096) % 64) as byte,
       (0x80 + (n / 64) % 64) as byte, (0x80 + n % 64) as byte]
  }

  /** `s.encode("utf-8")`. */
  function Utf8(s: string): (r: seq<byte>)
    ensures |s| <= |r| <= 4 * |s|
  {
    if s == [] then [] else Utf8Char(s[0]) + Utf8(s[1..])
  }

  // ---------------------------------------------------------------- repr

  /** The quote `repr` puts around a string: a double quote when the string
      holds a single quote and no double quote, a single quote otherwise. */
  function ReprQuote(s: string): (q: char)
    ensures q == '"' <==> '\'' in s && '"' !in s
    ensures q == '"' || q == '\''
  {
    if '\'' in s && '"' !in s then '"' else '\''
  }

  function HexDigit(n: nat): char
    requires n < 16
  {
    if n < 10 then ('0' as int + n) as char else ('a' as int + n - 10) as char
  }

  function HexValue(c: char): (n: nat)
    ensures n < 16
  {
    if '0' <= c <= '9' then c as int - '0' as int
    else if 'a' <= c <= 'f' then c as int - 'a' as int + 10
    else 0
  }

  /** How `repr` writes one character between quotes `q`: the quote and the
      backslash are escaped, tab, newline and carriage return get their
      letter escapes, other ASCII control characters a `\x` escape. */
  function ReprChar(c: char, q: char): string {
    if c == '\\' || c == q then ['\\', c]
    else if c == '\t' then "\\t"
    else if c == '\n' then "\\n"
    else if c == '\r' then "\\r"
    else if c as int < 32 || c as int == 127 then ['\\', 'x', HexDigit(c as int / 16), HexDigit(c as int % 16)]
    else [c]
  }

  function ReprBody(s: string, q: char): string
    decreases |s|
  {
    if s == [] then [] else ReprChar(s[0], q) + ReprBody(s[1..], q)
  }

  /** `repr(s)` for a string. */
  function Repr(s: string): string {
    var q := ReprQuote(s);
    [q] + ReprBody(s, q) + [q]
  }

  /** Reading back what is between the quotes: undo each escape. */
  function Unescape(t: string): string
    decreases |t|
  {
    if t == [] then []
    else if t[0] == '\\' && |t| >= 2 then
      if t[1] == 't' then ['\t'] + Unescape(t[2..])
      else if t[1] == 'n' then ['\n'] + Unescape(t[2..])
      else if t[1] == 'r' then ['\r'] + Unescape(t[2..])
      else if t[1] == 'x' && |t| >= 4 then [(HexValue(t[2]) * 16 + HexValue(t[3])) as char] + Unescape(t[4..])
      else [t[1]] + Unescape(t[2..])
    else [t[0]] + Unescape(t[1..])
  }

  lemma HexRoundTrip(n: nat)
    requires n < 16
    ensures HexValue(HexDigit(n)) == n
  {
  }

  lemma UnescapeChar(c: char, q: char, rest: string)
    requires q == '\'' || q == '"'
    ensures Unescape(ReprChar(c, q) + rest) == [c] + Unescape(rest)
  {
    var t := ReprChar(c, q) + rest;
    if c == '\\' || c == q {
      assert t[2..] == rest;
    } else if c == '\t' || c == '\n' || c == '\r' {
      assert t[2..] == rest;
    } else if c as int < 32 || c as int == 127 {
      var n := c as int;
      HexRoundTrip(n / 16);
      HexRoundTrip(n % 16);
      assert t[2] == HexDigit(n / 16) && t[3] == HexDigit(n % 16);
      assert t[4..] == rest;
    } else {
      assert t[1..] == rest;
    }
  }

  /** What `repr` writes between the quotes reads back as the string. */
  lemma {:induction false} ReprRoundTrip(s: string, q: char)
    requires q == '\'' || q == '"'
    ensures Unescape(ReprBody(s, q)) == s
    decreases |s|
  {
    if s != [] {
      UnescapeChar(s[0], q, ReprBody(s[1..], q));
      ReprRoundTrip(s[1..], q);
    }
  }

  /** A character `repr` copies as it is inside quotes `q`. */
  predicate Plain(c: char, q: char) {
    c != '\\' && c != q && 32 <= c as int && c as int != 127
  }

  lemma {:induction false} ReprBodyPlain(s: string, q: char)
    requires forall i :: 0 <= i < |s| ==> Plain(s[i], q)
    ensures ReprBody(s, q) == s
    decreases |s|
  {
    if s != [] {
      ReprBodyPlain(s[1..], q);
    }
  }

  /** A string without backslashes, control characters or single quotes is
      shown between single quotes as it is; one that holds a single quote
      but no double quote, between double quotes as it is. */
  lemma ReprPlain(s: string)
    requires forall i :: 0 <= i < |s| ==> s[i] != '\\' && 32 <= s[i] as int && s[i] as int != 127
    ensures '\'' !in s ==> Repr(s) == "'" + s + "'"
    ensures '\'' in s && '"' !in s ==> Repr(s) == "\"" + s + "\""
  {
    var q := ReprQuote(s);
    if '\'' !in s || '"' !in s {
      ReprBodyPlain(s, q);
    }
  }
}
