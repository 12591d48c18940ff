/**
  `_safe_request_path` of src/openfundscore/official_providers.py: a request path is accepted only
  when repeated percent-decoding reaches a fixpoint within eight rounds and every text on the way is clean.
 */
module RequestPath {
  import opened Prelude

  const MAX_RAW_PATH_CHARACTERS := 8192
  const MAX_DECODE_ROUNDS := 8

  // ---- character classes ----

  predicate IsHex(c: char) {
    '0' <= c <= '9' || 'a' <= c <= 'f' || 'A' <= c <= 'F'
  }

  function HexValue(c: char): (v: int)
    requires IsHex(c)
    ensures 0 <= v < 16
  {
    if '0' <= c <= '9' then c as int - '0' as int
    else if 'a' <= c <= 'f' then c as int - 'a' as int + 10
    else c as int - 'A' as int + 10
  }

  predicate IsAlphanumeric(c: char) {
    '0' <= c <= '9' || 'a' <= c <= 'z' || 'A' <= c <= 'Z'
  }

  /** The characters of `^/[A-Za-z0-9._~!$&'()*+,;=:@%/-]*$` after the leading slash. */
  predicate IsPathCharacter(c: char) {
    IsAlphanumeric(c) || c in "._~!$&'()*+,;=:@%/-"
  }

  predicate IsSafeRaw(path: string) {
    path != [] && path[0] == '/' && forall i | 1 <= i < |path| :: IsPathCharacter(path[i])
  }

  /** Neither a delimiter of the query or fragment, nor a backslash, control or non-ASCII character. */
  predicate IsPlain(c: char) {
    c !in "\\?#" && 32 <= c as int < 127
  }

  // ---- what must hold of the path and of everything it decodes to ----

  predicate StartsDoubleSlash(s: string) {
    |s| >= 2 && s[0] == '/' && s[1] == '/'
  }

  /** The path segment that ends before position `j` and starts at `i` is the text in between. */
  predicate IsSegment(s: string, i: nat, j: nat) {
    && i <= j <= |s|
    && (i == 0 || s[i - 1] == '/') && (j == |s| || s[j] == '/')
    && '/' !in s[i..j]
  }

  predicate HasDotSegment(s: string) {
    exists i, j | 0 <= i <= j <= |s| :: IsSegment(s, i, j) && (s[i..j] == "." || s[i..j] == "..")
  }

  predicate Clean(s: string) {
    !StartsDoubleSlash(s) && !HasDotSegment(s) && forall c | c in s :: IsPlain(c)
  }

  /** `current.split("/")` */
  function Split(s: string): (parts: seq<string>)
    ensures parts != []
  {
    if s == [] then [[]]
    else if s[0] == '/' then [[]] + Split(s[1..])
    else
      var rest := Split(s[1..]);
      [[s[0]] + rest[0]] + rest[1..]
  }

  // ---- one round of decoding ----

  /** An escape at the head: a percent sign and two hexadecimal digits. */
  predicate EscapeAt(s: string, i: nat) {
    i + 2 < |s| && s[i] == '%' && IsHex(s[i + 1]) && IsHex(s[i + 2])
  }

  function Decoded(s: string, i: nat): char
    requires EscapeAt(s, i)
  {
    (HexValue(s[i + 1]) * 16 + HexValue(s[i + 2])) as char
  }

  /** A decoded character may be neither a slash nor anything that is not plain. */
  predicate AllowedDecoded(c: char) {
    c != '/' && IsPlain(c)
  }

  /** Decodes every escape once; `None` when an escape is malformed or decodes to a forbidden character. */
  function DecodeFrom(s: string, i: nat): Option<string>
    requires i <= |s|
    decreases |s| - i
  {
    if i == |s| then Some([])
    else if s[i] != '%' then
      Prepend([s[i]], DecodeFrom(s, i + 1))
    else if !EscapeAt(s, i) || !AllowedDecoded(Decoded(s, i)) then None
    else Prepend([Decoded(s, i)], DecodeFrom(s, i + 3))
  }

  function DecodeOnce(s: string): Option<string> {
    DecodeFrom(s, 0)
  }

  /** The text after `k` rounds, if every round succeeded. */
  function AfterRounds(s: string, k: nat): Option<string> {
    if k == 0 then Some(s)
    else
      match AfterRounds(s, k - 1)
      case None => None
      case Some(t) => DecodeOnce(t)
  }

  /** After `k` rounds nothing is left to decode. */
  ghost predicate SettlesAt(path: string, k: nat) {
    && AfterRounds(path, k).Some? && '%' !in AfterRounds(path, k).value
    && (forall i | 0 <= i <= k :: AfterRounds(path, i).Some? && Clean(AfterRounds(path, i).value))
    && (forall i | 0 <= i < k :: '%' in AfterRounds(path, i).value)
  }

  ghost predicate Acceptable(path: string) {
    && |path| <= MAX_RAW_PATH_CHARACTERS && IsSafeRaw(path)
    && exists k :: 0 <= k <= MAX_DECODE_ROUNDS && SettlesAt(path, k)
  }

  // ---- facts about one round ----

  lemma {:induction false} DecodeLength(s: string, i: nat)
    requires i <= |s| && DecodeFrom(s, i).Some?
    ensures |DecodeFrom(s, i).value| <= |s| - i
    ensures '%' in s[i..] ==> |DecodeFrom(s, i).value| < |s| - i
    ensures '%' !in s[i..] ==> DecodeFrom(s, i).value == s[i..]
    decreases |s| - i
  {
    if i < |s| {
      assert s[i..] == [s[i]] + s[i + 1..];
      DecodeLength(s, if s[i] != '%' then i + 1 else i + 3);
    }
  }

  lemma {:induction false} PlainDecodes(s: string, i: nat)
    requires i <= |s| && '%' !in s[i..]
    ensures DecodeFrom(s, i) == Some(s[i..])
    decreases |s| - i
  {
    if i < |s| {
      assert s[i..] == [s[i]] + s[i + 1..];
      assert s[i] in s[i..] && s[i] != '%';
      PlainDecodes(s, i + 1);
      assert DecodeFrom(s, i) == Prepend([s[i]], Some(s[i + 1..]));
    } else {
      assert s[i..] == "";
    }
  }

  lemma UndecodableHasEscape(s: string)
    ensures '%' !in s ==> DecodeOnce(s) == Some(s)
  {
    assert s[0..] == s;
    if '%' !in s {
      PlainDecodes(s, 0);
    }
  }

  /** Decoding shortens a text exactly while escapes remain, and is the identity once none do. */
  lemma DecodingShrinks(s: string)
    requires DecodeOnce(s).Some?
    ensures '%' in s ==> |DecodeOnce(s).value| < |s|
    ensures '%' !in s ==> DecodeOnce(s).value == s
  {
    DecodeLength(s, 0);
    assert s[0..] == s;
  }

  /** Splitting at slashes yields exactly the segments. */
  lemma {:induction false} SplitIsSegments(s: string, part: string)
    ensures part in Split(s) <==> exists i, j | 0 <= i <= j <= |s| :: IsSegment(s, i, j) && s[i..j] == part
  {
    SplitHasSegments(s, part);
    forall i, j | 0 <= i <= j <= |s| && IsSegment(s, i, j) && s[i..j] == part ensures part in Split(s) {
      SegmentInSplit(s, i, j);
    }
  }

  lemma {:induction false} SplitHasSegments(s: string, part: string)
    ensures part in Split(s) ==> exists i, j | 0 <= i <= j <= |s| :: IsSegment(s, i, j) && s[i..j] == part
    ensures IsSegment(s, 0, |Split(s)[0]|) && s[..|Split(s)[0]|] == Split(s)[0]
    decreases |s|, 1
  {
    if s == [] {
      assert IsSegment(s, 0, 0) && s[0..0] == [];
    } else {
      SplitHasSegments(s[1..], part);
      if s[0] == '/' {
        assert IsSegment(s, 0, 0) && s[0..0] == [];
        if part in Split(s[1..]) {
          var i, j :| 0 <= i <= j <= |s| - 1 && IsSegment(s[1..], i, j) && s[1..][i..j] == part;
          SegmentLater(s, i, j);
        }
      } else {
        var first := Split(s[1..])[0];
        assert s[..|first| + 1] == [s[0]] + first;
        assert IsSegment(s, 0, |first| + 1) by { HeadGrows(s, |first|); }
        assert s[0..|first| + 1] == s[..|first| + 1];
        if part in Split(s) && part != Split(s)[0] {
          LaterParts(s, part);
        }
      }
    }
  }

  lemma HeadGrows(s: string, n: nat)
    requires s != [] && s[0] != '/' && IsSegment(s[1..], 0, n)
    ensures IsSegment(s, 0, n + 1)
  {
    assert s[0..n + 1] == [s[0]] + s[1..][0..n];
  }

  lemma SegmentLater(s: string, i: nat, j: nat)
    requires s != [] && IsSegment(s[1..], i, j) && (i == 0 ==> s[0] == '/')
    ensures IsSegment(s, i + 1, j + 1) && s[i + 1..j + 1] == s[1..][i..j]
  {
    SliceOfTail(s, i, j);
  }

  lemma SliceOfTail(s: string, i: nat, j: nat)
    requires i <= j < |s|
    ensures s[1..][i..j] == s[i + 1..j + 1]
  {
    assert forall k | 0 <= k < j - i :: s[1..][i..j][k] == s[i + 1..j + 1][k];
  }

  /** A part after the first starts after some slash. */
  lemma {:induction false} LaterParts(s: string, part: string)
    requires part in Split(s)[1..]
    ensures exists i, j | 0 < i <= j <= |s| :: IsSegment(s, i, j) && s[i..j] == part
    decreases |s|, 0
  {
    if s != [] {
      if s[0] == '/' {
        SplitHasSegments(s[1..], part);
        var i, j :| 0 <= i <= j <= |s| - 1 && IsSegment(s[1..], i, j) && s[1..][i..j] == part;
        SegmentLater(s, i, j);
      } else {
        LaterParts(s[1..], part);
        var i, j :| 0 < i <= j <= |s| - 1 && IsSegment(s[1..], i, j) && s[1..][i..j] == part;
        SegmentLater(s, i, j);
      }
    }
  }

  lemma {:induction false} SegmentInSplit(s: string, i: nat, j: nat)
    requires IsSegment(s, i, j)
    ensures s[i..j] in Split(s)
    ensures i == 0 ==> Split(s)[0] == s[..j]
    ensures i > 0 ==> s[i..j] in Split(s)[1..]
  {
    if s != [] {
      if s[0] == '/' {
        if i > 0 {
          SegmentShifts(s, i, j);
          SegmentInSplit(s[1..], i - 1, j - 1);
          assert Split(s)[1..] == Split(s[1..]);
        } else {
          assert j == 0;
        }
      } else {
        if i > 1 {
          SegmentShifts(s, i, j);
          SegmentInSplit(s[1..], i - 1, j - 1);
          assert Split(s)[1..] == Split(s[1..])[1..];
        } else {
          assert i == 0 && j > 0;
          assert s[1..][0..j - 1] == s[1..j];
          SegmentInSplit(s[1..], 0, j - 1);
          assert s[..j] == [s[0]] + s[1..][..j - 1];
          assert s[i..j] == s[..j];
        }
      }
    }
  }

  lemma SegmentShifts(s: string, i: nat, j: nat)
    requires s != [] && IsSegment(s, i, j) && i > 0 && (i == 1 ==> s[0] == '/')
    ensures IsSegment(s[1..], i - 1, j - 1) && s[1..][i - 1..j - 1] == s[i..j]
  {
    assert s[1..][i - 1..j - 1] == s[i..j];
  }

  // ---- the loops of the source ----

  /** The per-round test, over the split text as the source makes it. */
  method IsClean(s: string) returns (ok: bool)
    ensures ok <==> Clean(s)
  {
    SplitIsSegments(s, ".");
    SplitIsSegments(s, "..");
    var parts := Split(s);
    return !StartsDoubleSlash(s) && "." !in parts && ".." !in parts && forall c | c in s :: IsPlain(c);
  }

  /** The scanning loop of one round. */
  method DecodeRound(s: string, mayDecode: bool) returns (decoded: Option<string>, foundEscape: bool)
    ensures decoded.Some? ==> decoded == DecodeOnce(s) && (foundEscape <==> '%' in s)
    ensures decoded.None? ==> DecodeOnce(s).None? || (!mayDecode && '%' in s)
  {
    var text, index := "", 0;
    foundEscape := false;
    assert Prepend(text, DecodeOnce(s)) == DecodeOnce(s) by { PrependNothing(DecodeOnce(s)); }
    while index < |s|
      invariant index <= |s|
      invariant DecodeOnce(s) == Prepend(text, DecodeFrom(s, index))
      invariant foundEscape <==> '%' in s[..index]
      invariant foundEscape ==> mayDecode
    {
      if s[index] != '%' {
        assert s[..index + 1] == s[..index] + [s[index]];
        Append(text, s[index], DecodeFrom(s, index + 1));
        text := text + [s[index]];
        index := index + 1;
      } else {
        if !EscapeAt(s, index) {
          return None, foundEscape;
        }
        assert s[index] in s;
        if !mayDecode {
          return None, foundEscape;
        }
        var c := Decoded(s, index);
        if !AllowedDecoded(c) {
          return None, foundEscape;
        }
        foundEscape := true;
        assert s[..index + 3][index] == '%';
        Append(text, c, DecodeFrom(s, index + 3));
        text := text + [c];
        index := index + 3;
      }
    }
    assert s[..index] == s;
    assert text + "" == text;
    return Some(text), foundEscape;
  }

  function Prepend(text: string, rest: Option<string>): Option<string> {
    match rest
    case None => None
    case Some(r) => Some(text + r)
  }

  lemma PrependNothing(rest: Option<string>)
    ensures Prepend("", rest) == rest
  {
    if rest.Some? {
      assert "" + rest.value == rest.value;
    }
  }

  lemma Append(text: string, c: char, rest: Option<string>)
    ensures Prepend(text, Prepend([c], rest)) == Prepend(text + [c], rest)
  {
    if rest.Some? {
      assert text + ([c] + rest.value) == (text + [c]) + rest.value;
    }
  }

  /** Accepts exactly the acceptable paths, and returns an accepted path unchanged. */
  method SafeRequestPath(path: string) returns (r: Option<string>)
    ensures r.Some? <==> Acceptable(path)
    ensures r.Some? ==> r.value == path
  {
    if |path| > MAX_RAW_PATH_CHARACTERS || !IsSafeRaw(path) {
      return None;
    }
    var current := path;
    for round := 0 to MAX_DECODE_ROUNDS + 1
      invariant AfterRounds(path, round) == Some(current)
      invariant forall i | 0 <= i < round :: AfterRounds(path, i).Some? && Clean(AfterRounds(path, i).value) && '%' in AfterRounds(path, i).value
    {
      var clean := IsClean(current);
      if !clean {
        NeverSettles(path, round);
        return None;
      }
      var decoded, foundEscape := DecodeRound(current, round < MAX_DECODE_ROUNDS);
      if decoded.None? {
        assert '%' in current by { UndecodableHasEscape(current); }
        NeverSettles(path, round);
        return None;
      }
      if !foundEscape {
        assert SettlesAt(path, round);
        return Some(path);
      }
      current := decoded.value;
    }
    NeverSettles(path, MAX_DECODE_ROUNDS);
    return None;
  }

  /** If the first `round` texts all had escapes and this one fails its round, no admissible round settles. */
  lemma NeverSettles(path: string, round: nat)
    requires round <= MAX_DECODE_ROUNDS && AfterRounds(path, round).Some?
    requires forall i | 0 <= i < round :: AfterRounds(path, i).Some? && '%' in AfterRounds(path, i).value
    requires var current := AfterRounds(path, round).value;
             !Clean(current) || ('%' in current && (DecodeOnce(current).None? || round == MAX_DECODE_ROUNDS))
    ensures forall k | 0 <= k <= MAX_DECODE_ROUNDS :: !SettlesAt(path, k)
  {
    forall k | 0 <= k <= MAX_DECODE_ROUNDS ensures !SettlesAt(path, k) {
      assert k > round ==> AfterRounds(path, round + 1) == DecodeOnce(AfterRounds(path, round).value);
    }
  }

  /** On the way to its fixpoint an accepted path shrinks by at least two characters each round. */
  lemma {:induction false} AcceptedPathShrinks(path: string, k: nat, i: nat)
    requires SettlesAt(path, k) && i <= k
    ensures |AfterRounds(path, i).value| + 2 * i <= |path|
  {
    if i > 0 {
      AcceptedPathShrinks(path, k, i - 1);
      var before := AfterRounds(path, i - 1).value;
      assert DecodeOnce(before) == AfterRounds(path, i);
      EscapeCostsTwo(before, 0);
      assert before[0..] == before;
    }
  }

  lemma {:induction false} EscapeCostsTwo(s: string, i: nat)
    requires i <= |s| && DecodeFrom(s, i).Some?
    ensures |DecodeFrom(s, i).value| <= |s| - i
    ensures '%' in s[i..] ==> |DecodeFrom(s, i).value| + 2 <= |s| - i
    decreases |s| - i
  {
    if i < |s| {
      assert s[i..] == [s[i]] + s[i + 1..];
      EscapeCostsTwo(s, if s[i] != '%' then i + 1 else i + 3);
    }
  }
}
