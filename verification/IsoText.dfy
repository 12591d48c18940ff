/**
  The UTC timestamp text of src/openfundscore/storage.py (`_utc_iso`) and src/openfundscore/canonical.py
  (`_encode`): YYYY-MM-DDTHH:MM:SS.ffffffZ. SQLite compares these texts byte by byte; because every field
  has a fixed width, that comparison is the comparison of instants.
 */
module IsoText {
  import opened Ordering
  import opened Rounding
  import Calendar

  datatype Reading = Reading(date: Calendar.Date, hour: int, minute: int, second: int, micros: int)

  predicate Proper(r: Reading) {
    Calendar.Valid(r.date) && 0 <= r.hour < 24 && 0 <= r.minute < 60 && 0 <= r.second < 60 && 0 <= r.micros < 1_000_000
  }

  /** A timezone-aware datetime, already converted to UTC. */
  type Instant = r: Reading | Proper(r) witness Reading(Calendar.Date(1, 1, 1), 0, 0, 0, 0)

  /** Microseconds on the proleptic Gregorian time line. */
  function Micros(r: Instant): int {
    (((Calendar.Ordinal(r.date) * 24 + r.hour) * 60 + r.minute) * 60 + r.second) * 1_000_000 + r.micros
  }

  /** The last `k` decimal digits of `n`, most significant first. */
  function Digits(n: nat, k: nat): (text: string)
    ensures |text| == k
  {
    if k == 0 then [] else Digits(n / 10, k - 1) + [('0' as int + n % 10) as char]
  }

  /** A zero-padded field, its separator, and the fields after it. */
  function Field(n: nat, k: nat, separator: char, rest: string): (text: string)
    ensures |text| == k + 1 + |rest|
  {
    Digits(n, k) + ([separator] + rest)
  }

  function UtcIso(r: Instant): (text: string)
    ensures |text| == 27
  {
    Field(r.date.year, 4, '-', Field(r.date.month, 2, '-', Field(r.date.day, 2, 'T',
      Field(r.hour, 2, ':', Field(r.minute, 2, ':', Field(r.second, 2, '.', Field(r.micros, 6, 'Z', "")))))))
  }

  lemma PrependOrder(x: char, y: char, s: string, t: string)
    ensures StrLeq([x] + s, [y] + t) <==> x < y || (x == y && StrLeq(s, t))
  {
    assert ([x] + s)[1..] == s && ([y] + t)[1..] == t;
  }

  /** Zero-padded numbers of one width compare as numbers; equal numbers leave the comparison to the rest. */
  lemma {:induction false} DigitsOrder(a: nat, b: nat, k: nat, s: string, t: string)
    requires a < Pow10(k) && b < Pow10(k)
    ensures StrLeq(Digits(a, k) + s, Digits(b, k) + t) <==> a < b || (a == b && StrLeq(s, t))
  {
    if k == 0 {
      assert Digits(a, k) + s == s && Digits(b, k) + t == t;
    } else {
      var x, y := ('0' as int + a % 10) as char, ('0' as int + b % 10) as char;
      assert Digits(a, k) + s == Digits(a / 10, k - 1) + ([x] + s);
      assert Digits(b, k) + t == Digits(b / 10, k - 1) + ([y] + t);
      DigitsOrder(a / 10, b / 10, k - 1, [x] + s, [y] + t);
      PrependOrder(x, y, s, t);
    }
  }

  lemma FieldOrder(a: nat, b: nat, k: nat, separator: char, s: string, t: string)
    requires a < Pow10(k) && b < Pow10(k)
    ensures StrLeq(Field(a, k, separator, s), Field(b, k, separator, t)) <==> a < b || (a == b && StrLeq(s, t))
  {
    DigitsOrder(a, b, k, [separator] + s, [separator] + t);
    PrependOrder(separator, separator, s, t);
  }

  predicate TimeLeq(a: Instant, b: Instant) {
    || a.hour < b.hour
    || (a.hour == b.hour && (|| a.minute < b.minute
                             || (a.minute == b.minute && (|| a.second < b.second
                                                          || (a.second == b.second && a.micros <= b.micros)))))
  }

  function TimeText(r: Instant): string {
    Field(r.hour, 2, ':', Field(r.minute, 2, ':', Field(r.second, 2, '.', Field(r.micros, 6, 'Z', ""))))
  }

  lemma Widths()
    ensures Pow10(2) == 100 && Pow10(4) == 10_000 && Pow10(6) == 1_000_000
  {
    assert Pow10(3) == 1000 && Pow10(5) == 100_000;
  }

  lemma TimeOrder(a: Instant, b: Instant)
    ensures StrLeq(TimeText(a), TimeText(b)) <==> TimeLeq(a, b)
  {
    hide Field, StrLeq;
    Widths();
    var am, bm := Field(a.micros, 6, 'Z', ""), Field(b.micros, 6, 'Z', "");
    var asec, bsec := Field(a.second, 2, '.', am), Field(b.second, 2, '.', bm);
    var amin, bmin := Field(a.minute, 2, ':', asec), Field(b.minute, 2, ':', bsec);
    FieldOrder(a.micros, b.micros, 6, 'Z', "", "");
    StrTotal("", "");
    FieldOrder(a.second, b.second, 2, '.', am, bm);
    FieldOrder(a.minute, b.minute, 2, ':', asec, bsec);
    FieldOrder(a.hour, b.hour, 2, ':', amin, bmin);
  }

  lemma TextIsLexicographic(a: Instant, b: Instant)
    ensures StrLeq(UtcIso(a), UtcIso(b)) <==> if a.date == b.date then TimeLeq(a, b) else Calendar.Leq(a.date, b.date)
  {
    TimeOrder(a, b);
    hide Field, StrLeq, TimeLeq;
    Widths();
    var ad, bd := Field(a.date.day, 2, 'T', TimeText(a)), Field(b.date.day, 2, 'T', TimeText(b));
    var am, bm := Field(a.date.month, 2, '-', ad), Field(b.date.month, 2, '-', bd);
    assert UtcIso(a) == Field(a.date.year, 4, '-', am) && UtcIso(b) == Field(b.date.year, 4, '-', bm);
    FieldOrder(a.date.day, b.date.day, 2, 'T', TimeText(a), TimeText(b));
    FieldOrder(a.date.month, b.date.month, 2, '-', ad, bd);
    FieldOrder(a.date.year, b.date.year, 4, '-', am, bm);
  }

  /** Comparing the fixed-width texts is comparing the instants, for every pair of instants. */
  lemma TextOrderIsInstantOrder(a: Instant, b: Instant)
    ensures StrLeq(UtcIso(a), UtcIso(b)) <==> Micros(a) <= Micros(b)
    ensures Micros(a) == Micros(b) ==> a == b
  {
    TextIsLexicographic(a, b);
    Calendar.OrdinalOrder(a.date, b.date);
    hide UtcIso, StrLeq;
    hide Calendar.Ordinal, Calendar.Valid;
  }

  /** The text determines the instant. */
  lemma TextIsInjective(a: Instant, b: Instant)
    requires UtcIso(a) == UtcIso(b)
    ensures a == b
  {
    StrTotal(UtcIso(a), UtcIso(b));
    TextOrderIsInstantOrder(a, b);
    TextOrderIsInstantOrder(b, a);
  }

  // ---- reading the text back ----

  /** The number a decimal text writes, read from the left. */
  function ReadDecimal(text: string, soFar: int): int {
    if text == "" then soFar else ReadDecimal(text[1..], 10 * soFar + (text[0] as int - 48))
  }

  lemma {:induction false} ReadOneMore(text: string, c: char, soFar: int)
    ensures ReadDecimal(text + [c], soFar) == 10 * ReadDecimal(text, soFar) + (c as int - 48)
  {
    if text == "" {
      assert (text + [c])[1..] == "" && text + [c] == [c];
    } else {
      assert (text + [c])[1..] == text[1..] + [c];
      ReadOneMore(text[1..], c, 10 * soFar + (text[0] as int - 48));
    }
  }

  /** A padded field reads back as its number, in decimal digits only. */
  lemma {:induction false} DigitsReadBack(n: nat, k: nat)
    requires n < Pow10(k)
    ensures ReadDecimal(Digits(n, k), 0) == n
    ensures forall c | c in Digits(n, k) :: '0' <= c <= '9'
  {
    if k > 0 {
      DigitsReadBack(n / 10, k - 1);
      ReadOneMore(Digits(n / 10, k - 1), ('0' as int + n % 10) as char, 0);
    }
  }

  lemma FieldParts(n: nat, k: nat, separator: char, rest: string)
    ensures Field(n, k, separator, rest)[..k] == Digits(n, k) && Field(n, k, separator, rest)[k] == separator
    ensures Field(n, k, separator, rest)[k + 1..] == rest
  {
  }

  /** The text has its fields and separators where ISO 8601 puts them: YYYY-MM-DDTHH:MM:SS.ffffffZ. */
  lemma TextReadsBack(r: Instant)
    ensures var t := UtcIso(r);
            && ReadDecimal(t[0..4], 0) == r.date.year && ReadDecimal(t[5..7], 0) == r.date.month && ReadDecimal(t[8..10], 0) == r.date.day
            && ReadDecimal(t[11..13], 0) == r.hour && ReadDecimal(t[14..16], 0) == r.minute && ReadDecimal(t[17..19], 0) == r.second
            && ReadDecimal(t[20..26], 0) == r.micros
            && t[4] == '-' && t[7] == '-' && t[10] == 'T' && t[13] == ':' && t[16] == ':' && t[19] == '.' && t[26] == 'Z'
  {
    hide Field, Digits, ReadDecimal;
    Widths();
    var text := UtcIso(r);
    var micros := Field(r.micros, 6, 'Z', "");
    var second := Field(r.second, 2, '.', micros);
    var minute := Field(r.minute, 2, ':', second);
    var hour := Field(r.hour, 2, ':', minute);
    var day := Field(r.date.day, 2, 'T', hour);
    var month := Field(r.date.month, 2, '-', day);
    FieldAt(text, 0, r.date.year, 4, '-', month);
    FieldAt(text, 5, r.date.month, 2, '-', day);
    FieldAt(text, 8, r.date.day, 2, 'T', hour);
    FieldAt(text, 11, r.hour, 2, ':', minute);
    FieldAt(text, 14, r.minute, 2, ':', second);
    FieldAt(text, 17, r.second, 2, '.', micros);
    FieldAt(text, 20, r.micros, 6, 'Z', "");
  }

  lemma FieldAt(text: string, at: nat, n: nat, k: nat, separator: char, rest: string)
    requires at <= |text| && text[at..] == Field(n, k, separator, rest) && n < Pow10(k)
    ensures at + k < |text| && ReadDecimal(text[at..at + k], 0) == n && text[at + k] == separator && text[at + k + 1..] == rest
  {
    hide Digits, ReadDecimal, Field;
    FieldParts(n, k, separator, rest);
    DigitsReadBack(n, k);
    assert text[at..][..k] == text[at..at + k] && text[at..][k] == text[at + k] && text[at..][k + 1..] == text[at + k + 1..];
  }
}
