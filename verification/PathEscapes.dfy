/**
  What an accepted request path cannot hide: escapes stand for the character they number, escaping never
  moves a segment boundary, and no escaping, however deep, gets a dot segment or a delimiter past the check.
 */
module PathEscapes {
  import opened Prelude
  import opened RequestPath

  const LOWER_DIGITS := "0123456789abcdef"
  const UPPER_DIGITS := "0123456789ABCDEF"

  /** `c` is the hexadecimal digit worth `v`, in either case. */
  predicate WritesDigit(c: char, v: nat) {
    v < 16 && (c == LOWER_DIGITS[v] || c == UPPER_DIGITS[v])
  }

  // ---- decoding inverts percent-encoding ----

  lemma DigitCode(v: nat)
    requires v < 16
    ensures LOWER_DIGITS[v] as int == (if v < 10 then 48 + v else 87 + v)
    ensures UPPER_DIGITS[v] as int == (if v < 10 then 48 + v else 55 + v)
  {
    if v < 10 {
      assert LOWER_DIGITS[..10] == "0123456789" == UPPER_DIGITS[..10];
      DecimalCode(v);
      assert LOWER_DIGITS[v] == LOWER_DIGITS[..10][v] && UPPER_DIGITS[v] == UPPER_DIGITS[..10][v];
    } else {
      assert LOWER_DIGITS[10..] == "abcdef" && UPPER_DIGITS[10..] == "ABCDEF";
      LetterCode(v - 10);
      assert LOWER_DIGITS[v] == LOWER_DIGITS[10..][v - 10] && UPPER_DIGITS[v] == UPPER_DIGITS[10..][v - 10];
    }
  }

  lemma DecimalCode(v: nat)
    requires v < 10
    ensures "0123456789"[v] as int == 48 + v
  {
  }

  lemma LetterCode(v: nat)
    requires v < 6
    ensures "abcdef"[v] as int == 97 + v && "ABCDEF"[v] as int == 65 + v
  {
  }

  lemma DigitIsHex(c: char, v: nat)
    requires WritesDigit(c, v)
    ensures IsHex(c) && HexValue(c) == v
  {
    DigitCode(v);
  }

  /** Every hexadecimal character writes some digit, so nothing else is ever read as an escape. */
  lemma HexIsDigit(c: char) returns (v: nat)
    requires IsHex(c)
    ensures WritesDigit(c, v)
  {
    v := if c <= '9' then c as int - 48 else if c <= 'F' then c as int - 55 else c as int - 87;
    DigitCode(v);
  }

  /** An escape written with the digits of `n`, in any mix of case and at any place, is the character numbered `n`. */
  lemma DecodingInvertsEncoding(s: string, i: nat, n: nat)
    requires n < 256 && i + 2 < |s| && s[i] == '%' && WritesDigit(s[i + 1], n / 16) && WritesDigit(s[i + 2], n % 16)
    ensures EscapeAt(s, i) && Decoded(s, i) == n as char
    ensures DecodeFrom(s, i) == if AllowedDecoded(n as char) then Prepend([n as char], DecodeFrom(s, i + 3)) else None
  {
    DigitIsHex(s[i + 1], n / 16);
    DigitIsHex(s[i + 2], n % 16);
  }

  // ---- decoding works segment by segment ----

  /** Two texts that meet at a slash or where one of them ends: no escape lies across. */
  predicate MeetAtSlash(a: string, b: string) {
    a == "" || b == "" || a[|a| - 1] == '/' || b[0] == '/'
  }

  function Joined(a: Option<string>, b: Option<string>): Option<string> {
    if a.Some? && b.Some? then Some(a.value + b.value) else None
  }

  lemma EscapeStaysLeft(a: string, b: string, i: nat)
    requires MeetAtSlash(a, b) && i < |a| && a[i] == '%'
    ensures EscapeAt(a + b, i) <==> EscapeAt(a, i)
    ensures EscapeAt(a, i) ==> Decoded(a + b, i) == Decoded(a, i)
  {
  }

  lemma JoinPrepended(c: string, x: Option<string>, y: Option<string>)
    ensures Joined(Prepend(c, x), y) == Prepend(c, Joined(x, y))
  {
    if x.Some? && y.Some? {
      assert (c + x.value) + y.value == c + (x.value + y.value);
    }
  }

  lemma {:induction false} ShiftDecode(a: string, b: string, i: nat)
    requires i <= |b|
    ensures DecodeFrom(a + b, |a| + i) == DecodeFrom(b, i)
    decreases |b| - i
  {
    if i < |b| {
      assert (a + b)[|a| + i] == b[i];
      if b[i] != '%' {
        ShiftDecode(a, b, i + 1);
      } else if EscapeAt(b, i) {
        ShiftDecode(a, b, i + 3);
      }
    }
  }

  lemma {:induction false} DecodeJoinFrom(a: string, b: string, i: nat)
    requires MeetAtSlash(a, b) && i <= |a|
    ensures DecodeFrom(a + b, i) == Joined(DecodeFrom(a, i), DecodeFrom(b, 0))
    decreases |a| - i
  {
    hide EscapeAt, Decoded, AllowedDecoded, MeetAtSlash;
    var rest := DecodeFrom(b, 0);
    if i == |a| {
      ShiftDecode(a, b, 0);
      assert rest.Some? ==> "" + rest.value == rest.value;
    } else if a[i] != '%' {
      DecodeJoinFrom(a, b, i + 1);
      JoinPrepended([a[i]], DecodeFrom(a, i + 1), rest);
    } else {
      EscapeStaysLeft(a, b, i);
      if EscapeAt(a, i) {
        EscapeFits(a, i);
        DecodeJoinFrom(a, b, i + 3);
        JoinPrepended([Decoded(a, i)], DecodeFrom(a, i + 3), rest);
      }
    }
  }

  lemma EscapeFits(s: string, i: nat)
    requires EscapeAt(s, i)
    ensures i + 3 <= |s| && s[i] == '%'
  {
  }

  lemma DecodeJoin(a: string, b: string)
    requires MeetAtSlash(a, b)
    ensures DecodeOnce(a + b) == Joined(DecodeOnce(a), DecodeOnce(b))
  {
    DecodeJoinFrom(a, b, 0);
  }

  /** Text before a segment: nothing, or something that ends in a slash. */
  predicate Before(a: string) {
    a == "" || a[|a| - 1] == '/'
  }

  predicate After(b: string) {
    b == "" || b[0] == '/'
  }

  lemma DecodeSlash()
    ensures DecodeOnce("/") == Some("/")
  {
    PlainDecodes("/", 0);
    assert "/"[0..] == "/";
  }

  lemma DecodeKeepsBefore(a: string)
    requires Before(a) && DecodeOnce(a).Some?
    ensures Before(DecodeOnce(a).value)
  {
    if a != "" {
      assert a == a[..|a| - 1] + "/";
      DecodeJoin(a[..|a| - 1], "/");
      DecodeSlash();
    }
  }

  lemma DecodeKeepsAfter(b: string)
    requires After(b) && DecodeOnce(b).Some?
    ensures After(DecodeOnce(b).value)
  {
    if b != "" {
      assert b == "/" + b[1..];
      DecodeJoin("/", b[1..]);
      DecodeSlash();
    }
  }

  /** After any number of rounds the three parts are still there, each decoded on its own. */
  lemma {:induction false} RoundsBySegment(a: string, part: string, b: string, k: nat)
    requires Before(a) && After(b) && AfterRounds(a + part + b, k).Some?
    ensures AfterRounds(a, k).Some? && AfterRounds(part, k).Some? && AfterRounds(b, k).Some?
    ensures Before(AfterRounds(a, k).value) && After(AfterRounds(b, k).value)
    ensures AfterRounds(a + part + b, k).value == AfterRounds(a, k).value + AfterRounds(part, k).value + AfterRounds(b, k).value
  {
    hide DecodeOnce;
    if k > 0 {
      RoundsBySegment(a, part, b, k - 1);
      var x, y, z := AfterRounds(a, k - 1).value, AfterRounds(part, k - 1).value, AfterRounds(b, k - 1).value;
      DecodeJoin(x + y, z);
      DecodeJoin(x, y);
      DecodeKeepsBefore(x);
      DecodeKeepsAfter(z);
    }
  }

  lemma {:induction false} SettledStays(s: string, k: nat, n: nat)
    requires k <= n && AfterRounds(s, k).Some? && '%' !in AfterRounds(s, k).value
    ensures AfterRounds(s, n) == AfterRounds(s, k)
    decreases n
  {
    if k < n {
      SettledStays(s, k, n - 1);
      UndecodableHasEscape(AfterRounds(s, k).value);
    }
  }

  lemma DotSegmentIsUnclean(a: string, part: string, b: string)
    requires Before(a) && After(b) && (part == "." || part == "..")
    ensures !Clean(a + part + b)
  {
    var s, i, j := a + part + b, |a|, |a| + |part|;
    assert s[i..j] == part;
    assert IsSegment(s, i, j);
  }

  /** A segment that turns into "." or ".." after any number of rounds keeps its path from ever being accepted. */
  lemma HiddenDotsAreRefused(a: string, part: string, b: string, k: nat)
    requires Before(a) && After(b)
    requires AfterRounds(part, k) == Some(".") || AfterRounds(part, k) == Some("..")
    ensures !Acceptable(a + part + b)
  {
    hide Clean, IsSafeRaw, Before, After;
    var path := a + part + b;
    forall n | 0 <= n <= MAX_DECODE_ROUNDS ensures !SettlesAt(path, n) {
      if SettlesAt(path, n) {
        var m := if k <= n then k else n;
        RoundsBySegment(a, part, b, m);
        if n < k {
          assert '%' !in AfterRounds(part, n).value;
          SettledStays(part, n, k);
        }
        DotSegmentIsUnclean(AfterRounds(a, m).value, AfterRounds(part, m).value, AfterRounds(b, m).value);
        assert false;
      }
    }
  }

  /** The ways to write one dot. */
  predicate WritesDot(d: string) {
    d == "." || d == "%2e" || d == "%2E"
  }

  lemma DotDecodes(d: string)
    requires WritesDot(d)
    ensures DecodeOnce(d) == Some(".")
  {
    if d == "." {
      assert "."[0..] == ".";
      PlainDecodes(d, 0);
    } else {
      assert WritesDigit('2', 2) && WritesDigit('e', 14) && WritesDigit('E', 14) by { DotDigits(); }
      DecodingInvertsEncoding(d, 0, 46);
      assert DecodeFrom(d, 3) == Some("");
      assert 46 as char == '.';
      assert ['.'] + "" == ".";
    }
  }

  lemma DotDigits()
    ensures WritesDigit('2', 2) && WritesDigit('e', 14) && WritesDigit('E', 14)
  {
    DigitCode(2);
    DigitCode(14);
  }

  lemma TwoDotsDecode(d: string, e: string)
    requires WritesDot(d) && WritesDot(e)
    ensures DecodeOnce(d + e) == Some("..")
  {
    DotDecodes(d);
    DotDecodes(e);
    DotJoin(d, e);
    assert "." + "." == "..";
  }

  lemma DotJoin(d: string, e: string)
    requires WritesDot(d)
    ensures DecodeOnce(d + e) == Joined(DecodeOnce(d), DecodeOnce(e))
  {
    ShiftDecode(d, e, 0);
    DotDecodes(d);
    var rest := DecodeFrom(e, 0);
    if d == "." {
      assert (d + e)[0] == '.';
    } else {
      DotDigits();
      DecodingInvertsEncoding(d + e, 0, 46);
      assert 46 as char == '.';
    }
  }

  /** A parent or current directory segment is refused however its dots are written. */
  lemma DotSegmentsAreRefused(a: string, d: string, e: string, b: string)
    requires Before(a) && After(b) && WritesDot(d) && (e == "" || WritesDot(e))
    ensures !Acceptable(a + (d + e) + b)
  {
    assert AfterRounds(d + e, 0) == Some(d + e);
    if e == "" {
      DotDecodes(d);
      assert d + e == d;
    } else {
      TwoDotsDecode(d, e);
    }
    HiddenDotsAreRefused(a, d + e, b, 1);
  }

  // ---- what acceptance guarantees of every text on the way ----

  function Slashes(s: string): nat {
    if s == "" then 0 else (if s[0] == '/' then 1 else 0) + Slashes(s[1..])
  }

  lemma SlashesOfLonger(c: char, t: string)
    ensures Slashes([c] + t) == (if c == '/' then 1 else 0) + Slashes(t)
  {
    assert ([c] + t)[1..] == t;
  }

  lemma SlashesFrom(s: string, i: nat)
    requires i < |s|
    ensures Slashes(s[i..]) == (if s[i] == '/' then 1 else 0) + Slashes(s[i + 1..])
  {
    assert s[i..][1..] == s[i + 1..];
  }

  lemma NoSlashInEscape(s: string, i: nat)
    requires EscapeAt(s, i)
    ensures Slashes(s[i..]) == Slashes(s[i + 3..])
  {
    hide Slashes;
    SlashesFrom(s, i);
    SlashesFrom(s, i + 1);
    SlashesFrom(s, i + 2);
  }

  lemma {:induction false} DecodingAddsNoSlash(s: string, i: nat)
    requires i <= |s| && DecodeFrom(s, i).Some?
    ensures Slashes(DecodeFrom(s, i).value) == Slashes(s[i..])
    decreases |s| - i
  {
    hide Slashes, EscapeAt, Decoded, IsPlain;
    if i == |s| {
      assert s[i..] == DecodeFrom(s, i).value;
    } else if s[i] != '%' {
      DecodingAddsNoSlash(s, i + 1);
      SlashesFrom(s, i);
      SlashesOfLonger(s[i], DecodeFrom(s, i + 1).value);
    } else {
      EscapeFits(s, i);
      DecodingAddsNoSlash(s, i + 3);
      NoSlashInEscape(s, i);
      SlashesOfLonger(Decoded(s, i), DecodeFrom(s, i + 3).value);
    }
  }

  lemma RoundIsFromStart(s: string)
    ensures DecodeOnce(s) == DecodeFrom(s, 0)
  {
  }

  lemma DecodingKeepsStart(s: string)
    requires s != "" && s[0] == '/' && DecodeOnce(s).Some?
    ensures DecodeOnce(s).value != "" && DecodeOnce(s).value[0] == '/'
  {
  }

  /** Every text an accepted path decodes to is rooted, free of delimiters and odd characters, and has the same slashes. */
  lemma {:induction false} AcceptedTextsAreSafe(path: string, k: nat, i: nat)
    requires IsSafeRaw(path) && SettlesAt(path, k) && i <= k
    ensures var t := AfterRounds(path, i).value;
            && t != "" && t[0] == '/' && (|t| > 1 ==> t[1] != '/')
            && (forall c | c in t :: c != '\\' && c != '?' && c != '#' && 32 <= c as int <= 126)
            && Slashes(t) == Slashes(path)
  {
    hide Slashes, DecodeOnce, HasDotSegment;
    assert Clean(AfterRounds(path, i).value);
    if i > 0 {
      AcceptedTextsAreSafe(path, k, i - 1);
      var before := AfterRounds(path, i - 1).value;
      assert DecodeOnce(before) == AfterRounds(path, i);
      DecodingKeepsStart(before);
      RoundIsFromStart(before);
      DecodingAddsNoSlash(before, 0);
      assert before[0..] == before;
    }
  }

  /** The characters a path may be written in are those of section 3.3 of RFC 3986, with the slash between segments. */
  predicate Unreserved(c: char) {
    'A' <= c <= 'Z' || 'a' <= c <= 'z' || '0' <= c <= '9' || c == '-' || c == '.' || c == '_' || c == '~'
  }

  predicate SubDelimiter(c: char) {
    c == '!' || c == '$' || c == '&' || c == '\'' || c == '(' || c == ')' || c == '*' || c == '+' || c == ',' || c == ';' || c == '='
  }

  lemma PathCharacters(c: char)
    ensures IsPathCharacter(c) <==> Unreserved(c) || SubDelimiter(c) || c == '%' || c == ':' || c == '@' || c == '/'
  {
  }

  // ---- how deep an accepted escape may be ----

  /** The letter a, escaped `n` times over. */
  function Layers(n: nat): string {
    if n == 0 then "a" else if n == 1 then "%61" else "%25" + Layers(n - 1)[1..]
  }

  function Nested(n: nat): string {
    "/" + Layers(n)
  }

  lemma {:induction false} LayersShape(n: nat)
    ensures |Layers(n)| == if n == 0 then 1 else 2 * n + 1
    ensures n > 0 ==> Layers(n)[0] == '%' && '%' !in Layers(n)[1..]
    ensures n == 0 ==> '%' !in Layers(n)
    ensures forall c | c in Layers(n) :: c in "%1256a"
  {
    if n > 1 {
      LayersShape(n - 1);
      assert Layers(n) == ['%', '2', '5'] + Layers(n - 1)[1..];
      assert Layers(n)[1..] == ['2', '5'] + Layers(n - 1)[1..];
    }
  }

  lemma LayerDecodes(n: nat)
    requires n > 0
    ensures DecodeOnce(Nested(n)) == Some(Nested(n - 1))
  {
    var s, code := Nested(n), if n == 1 then 97 else 37;
    LayersShape(n);
    LayersShape(n - 1);
    DigitCode(2);
    DigitCode(5);
    DigitCode(6);
    DigitCode(1);
    assert s[0] == '/' && s[1] == '%';
    assert n > 1 ==> s == "/%25" + Layers(n - 1)[1..];
    DecodingInvertsEncoding(s, 1, code);
    assert s[4..] == if n == 1 then "" else Layers(n - 1)[1..];
    PlainDecodes(s, 4);
    assert 97 as char == 'a' && 37 as char == '%';
    assert DecodeFrom(s, 1) == Some([code as char] + s[4..]);
    assert [code as char] + s[4..] == Layers(n - 1);
    assert DecodeFrom(s, 0) == Prepend("/", Some(Layers(n - 1)));
  }

  lemma {:induction false} NestedRounds(n: nat, k: nat)
    requires k <= n
    ensures AfterRounds(Nested(n), k) == Some(Nested(n - k))
  {
    if k > 0 {
      NestedRounds(n, k - 1);
      LayerDecodes(n - k + 1);
    }
  }

  lemma NoDots(s: string)
    requires '.' !in s
    ensures !HasDotSegment(s)
  {
    hide IsSegment;
    forall i, j | 0 <= i <= j <= |s| ensures s[i..j] != "." && s[i..j] != ".." {
      if i < j {
        assert s[i..j][0] == s[i];
      }
    }
  }

  lemma NestedIsClean(n: nat)
    ensures Clean(Nested(n)) && IsSafeRaw(Nested(n))
    ensures '%' in Nested(n) <==> n > 0
  {
    hide HasDotSegment;
    LayersShape(n);
    var s := Nested(n);
    assert forall c | c in s :: c == '/' || c in Layers(n);
    NoDots(s);
    assert forall i | 1 <= i < |s| :: s[i] == Layers(n)[i - 1] && s[i] in Layers(n);
    if n > 0 {
      assert s[1] == '%';
    }
  }

  /** Eight layers of escaping are accepted, nine are not. */
  lemma EightLayers(n: nat)
    ensures Acceptable(Nested(n)) <==> n <= 8
  {
    hide Clean, IsSafeRaw, Nested;
    NestedLength(n);
    forall k | 0 <= k <= n ensures AfterRounds(Nested(n), k) == Some(Nested(n - k)) && ('%' in Nested(n - k) <==> k < n) && Clean(Nested(n - k)) {
      NestedRounds(n, k);
      NestedIsClean(n - k);
    }
    NestedIsClean(n);
    if n <= 8 {
      assert SettlesAt(Nested(n), n);
    }
  }

  lemma NestedLength(n: nat)
    ensures |Nested(n)| == if n == 0 then 2 else 2 * n + 2
  {
    LayersShape(n);
  }

  /** A path without escapes is accepted exactly when it is clean, well written and at most 8192 characters long. */
  lemma PlainPaths(path: string)
    requires '%' !in path
    ensures Acceptable(path) <==> Clean(path) && IsSafeRaw(path) && |path| <= 8192
  {
    hide Clean, IsSafeRaw;
    assert AfterRounds(path, 0) == Some(path);
    if Clean(path) {
      assert SettlesAt(path, 0);
    }
  }
}
