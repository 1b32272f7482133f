/**
 * `usePersistentCadence`: a page-view counter kept per key in the
 * browser's key/value storage, read and incremented once per session (a
 * module-level memo remembers the count seen), which answers whether the
 * current page view falls on the cadence.
 */
module PersistentCadence {
  import opened Wrappers
  import opened Decimal

  // ---------------------------------------------------------------------
  // JavaScript number text
  // ---------------------------------------------------------------------

  /** The characters `parseInt` skips before the number (white space and line terminators). */
  predicate IsJsSpace(c: char)
  {
    || c == '\t' || c == '\n' || c == '\U{000B}' || c == '\U{000C}' || c == '\r' || c == ' '
    || c == '\U{00A0}' || c == '\U{1680}' || ('\U{2000}' <= c <= '\U{200A}')
    || c == '\U{2028}' || c == '\U{2029}' || c == '\U{202F}' || c == '\U{205F}'
    || c == '\U{3000}' || c == '\U{FEFF}'
  }

  function TrimStart(s: string): (t: string)
    ensures |t| <= |s| && t == s[|s| - |t|..]
    ensures t != [] ==> !IsJsSpace(t[0])
  {
    if s != [] && IsJsSpace(s[0]) then TrimStart(s[1..]) else s
  }

  /** The longest run of decimal digits at the front of `s`. */
  function DigitPrefix(s: string): (d: string)
    ensures AllDigits(d) && d <= s
    ensures |d| < |s| ==> !IsDigit(s[|d|])
  {
    if s != [] && IsDigit(s[0]) then [s[0]] + DigitPrefix(s[1..]) else []
  }

  /** A leading '-' or '+': whether the number is negative, and the text after the sign. */
  function SplitSign(t: string): (r: (bool, string))
    ensures r.1 == if t != [] && (t[0] == '-' || t[0] == '+') then t[1..] else t
  {
    if t != [] && t[0] == '-' then (true, t[1..])
    else if t != [] && t[0] == '+' then (false, t[1..])
    else (false, t)
  }

  /** The value of the leading digits, `None` when there are none. */
  function ParseDigits(body: string): (r: Option<nat>)
    ensures r.None? <==> body == [] || !IsDigit(body[0])
  {
    var digits := DigitPrefix(body);
    if digits == [] then None else Some(DigitsValue(digits))
  }

  /**
   * `parseInt(s, 10)`: after leading white space an optional sign and
   * the longest run of digits; `None` stands for `NaN`, when there is no
   * digit at all.
   */
  function ParseInt(s: string): (r: Option<int>)
    ensures r.None? <==> ParseDigits(SplitSign(TrimStart(s)).1).None?
  {
    var (negative, body) := SplitSign(TrimStart(s));
    match ParseDigits(body)
    case None => None
    case Some(magnitude) =>
      var value: int := magnitude;
      Some(if negative then -value else value)
  }

  /**
   * `parseInt(localStorage.getItem(key) || '', 10) || 0`: a missing or
   * unparsable value counts as 0 (and so does `-0`).
   */
  function StoredCount(storage: map<string, string>, key: string): (n: int)
    ensures key !in storage ==> n == 0
  {
    var text := if key in storage then storage[key] else "";
    match ParseInt(text)
    case None => 0
    case Some(n) => n
  }

  /**
   * `n % cadence === 0` on JavaScript numbers: `%` truncates toward zero,
   * and a zero cadence gives `NaN`, which equals nothing.
   */
  function TruncRem(n: int, d: int): (r: int)
    requires d != 0
    ensures (r == 0) == (n % d == 0)
    ensures n >= 0 ==> 0 <= r && (d > 0 ==> r < d)
    ensures n < 0 ==> r <= 0
  {
    var m := Abs(n) % Abs(d);
    RemOfAbs(n, d);
    if n < 0 then -m else m
  }

  function Abs(x: int): nat { if x < 0 then -x else x }

  /** Whether the remainder is zero does not depend on the signs. */
  lemma RemOfAbs(n: int, d: int)
    requires d != 0
    ensures (Abs(n) % Abs(d) == 0) == (n % d == 0)
  {
    if n % d == 0 {
      var q := n / d;
      assert n == d * q;
      AbsProduct(d, q);
      DividesMod(Abs(n), Abs(d), Abs(q));
    }
    if Abs(n) % Abs(d) == 0 {
      var q := Abs(n) / Abs(d);
      assert Abs(n) == Abs(d) * q;
      var q' := SignedQuotient(n, d, q);
      DividesMod(n, d, q');
    }
  }

  /** The magnitude of a product is the product of the magnitudes. */
  lemma AbsProduct(a: int, b: int)
    ensures Abs(a * b) == Abs(a) * Abs(b)
  {
    if a < 0 && b < 0 {
      assert a * b == (-a) * (-b);
    } else if a < 0 {
      assert a * b == -((-a) * b);
    } else if b < 0 {
      assert a * b == -(a * (-b));
    }
  }

  /** A multiple of the magnitudes gives a multiple of the signed values. */
  lemma SignedQuotient(n: int, d: int, q: int) returns (q': int)
    requires d != 0 && Abs(n) == Abs(d) * q
    ensures n == d * q'
  {
    if (n < 0) == (d < 0) {
      q' := q;
      if n < 0 {
        assert -n == (-d) * q;
        assert (-d) * q == -(d * q);
      }
    } else {
      q' := -q;
      if n < 0 {
        assert -n == d * q;
        assert d * (-q) == -(d * q);
      } else {
        assert n == (-d) * q;
        assert (-d) * q == d * (-q);
      }
    }
  }

  /** A multiple of `b` leaves no remainder. */
  lemma DividesMod(a: int, b: int, q: int)
    requires b != 0 && a == b * q
    ensures a % b == 0
  {
    var k := q - a / b;
    assert a == b * (a / b) + a % b;
    assert b * k == a % b;
    SmallMultiple(b, k);
  }

  /** The only multiple of `b` in `[0, |b|)` is zero. */
  lemma SmallMultiple(b: int, k: int)
    requires b != 0 && 0 <= b * k < Abs(b)
    ensures k == 0
  {
  }

  predicate OnCadence(pageViewCount: int, cadence: int)
  {
    cadence != 0 && TruncRem(pageViewCount, cadence) == 0
  }

  // ---------------------------------------------------------------------
  // The hook
  // ---------------------------------------------------------------------

  /**
   * `localStorage` and the module-level map `incrementedLocalStorageKeys`,
   * which remembers, per key, the count read in this session.
   */
  class CadenceTracker {
    var storage: map<string, string>
    var memo: map<string, int>

    /** A fresh session over whatever the storage already holds. */
    constructor (initialStorage: map<string, string>)
      ensures storage == initialStorage && memo == map[]
    {
      storage := initialStorage;
      memo := map[];
    }

    /**
     * `usePersistentCadence(key, cadence)`. The first call for `key` in a
     * session reads the stored count, stores one more and remembers the
     * count read; later calls answer from the memo and leave storage alone.
     */
    method UsePersistentCadence(key: string, cadence: int) returns (show: bool)
      modifies this
      ensures key !in old(memo) ==>
                && storage == Session(old(storage), key)
                && memo == old(memo)[key := StoredCount(old(storage), key)]
                && show == OnCadence(StoredCount(old(storage), key), cadence)
      ensures key in old(memo) ==>
                && storage == old(storage) && memo == old(memo)
                && show == OnCadence(old(memo)[key], cadence)
    {
      if key !in memo {
        var text := if key in storage then storage[key] else "";
        var parsed := ParseInt(text);
        var pageViewCount := if parsed.Some? then parsed.value else 0;
        assert pageViewCount == StoredCount(storage, key);
        assert storage[key := IntToString(pageViewCount + 1)] == Session(storage, key);
        storage := storage[key := IntToString(pageViewCount + 1)];
        memo := memo[key := pageViewCount];
        return cadence != 0 && TruncRem(pageViewCount, cadence) == 0;
      }
      var pageViewCount := memo[key];
      return cadence != 0 && TruncRem(pageViewCount, cadence) == 0;
    }

    /** `reset()`: forget which keys this session has counted. */
    method Reset()
      modifies this`memo
      ensures memo == map[]
    {
      memo := map[];
    }
  }

  // ---------------------------------------------------------------------
  // Properties
  // ---------------------------------------------------------------------

  /** The digits of a run of digits are the whole run. */
  lemma {:induction false} DigitPrefixAll(s: string)
    requires AllDigits(s)
    ensures DigitPrefix(s) == s
  {
    if s != [] {
      DigitPrefixAll(s[1..]);
    }
  }

  /** `parseInt` reads back what `toString` wrote. */
  lemma ParseIntToString(n: int)
    ensures ParseInt(IntToString(n)) == Some(n)
  {
    var digits := NatToString(Abs(n));
    ParseDigitsOfNat(Abs(n));
    ParseSigned(n < 0, digits, Abs(n));
    assert IntToString(n) == (if n < 0 then "-" else "") + digits;
  }

  /** An optional '-' followed by digits parses to the digits' value, negated after the '-'. */
  lemma ParseSigned(negative: bool, digits: string, v: nat)
    requires digits != [] && IsDigit(digits[0]) && ParseDigits(digits) == Some(v)
    ensures ParseInt((if negative then "-" else "") + digits) == Some(if negative then -(v as int) else v as int)
  {
    var s := (if negative then "-" else "") + digits;
    TrimStartStops(s);
    SplitSignOf(negative, digits);
    ParseIntOf(s, negative, digits, v);
  }

  lemma TrimStartStops(s: string)
    requires s != [] && (s[0] == '-' || IsDigit(s[0]))
    ensures TrimStart(s) == s
  {
  }

  lemma SplitSignOf(negative: bool, digits: string)
    requires digits != [] && IsDigit(digits[0])
    ensures SplitSign((if negative then "-" else "") + digits) == (negative, digits)
  {
    if negative {
      assert ("-" + digits)[1..] == digits;
    } else {
      assert "" + digits == digits;
    }
  }

  lemma ParseIntOf(s: string, negative: bool, body: string, v: nat)
    requires SplitSign(TrimStart(s)) == (negative, body) && ParseDigits(body) == Some(v)
    ensures ParseInt(s) == Some(if negative then -(v as int) else v as int)
  {
  }

  lemma ParseDigitsOfNat(n: nat)
    ensures ParseDigits(NatToString(n)) == Some(n)
  {
    DigitPrefixAll(NatToString(n));
    NatToStringRoundTrip(n);
  }

  /** The value stored by a first call is read back as one more than the count it read. */
  lemma StoredCountAdvances(storage: map<string, string>, key: string)
    ensures var n := StoredCount(storage, key);
            StoredCount(Session(storage, key), key) == n + 1
  {
    ReadBack(storage, key, StoredCount(storage, key) + 1);
  }

  /** A count written as text is read back as that count. */
  lemma ReadBack(storage: map<string, string>, key: string, n: int)
    ensures StoredCount(Write(storage, key, n), key) == n
  {
    ParseIntToString(n);
  }

  /** A session leaves every other key's count alone. */
  lemma OtherKeysUntouched(storage: map<string, string>, key: string, other: string)
    requires other != key
    ensures StoredCount(Session(storage, key), other) == StoredCount(storage, other)
  {
  }

  /** With nothing stored, the first page view is on any non-zero cadence. */
  lemma FirstViewShows(storage: map<string, string>, key: string, cadence: int)
    requires key !in storage && cadence != 0
    ensures OnCadence(StoredCount(storage, key), cadence)
  {
  }

  /** The storage with `count` written under `key`, as `toString` writes it. */
  function Write(storage: map<string, string>, key: string, count: int): (s: map<string, string>)
    ensures key in s
  {
    storage[key := IntToString(count)]
  }

  /** What a session's first call writes: one more than the count it read. */
  function Session(storage: map<string, string>, key: string): map<string, string>
  {
    Write(storage, key, StoredCount(storage, key) + 1)
  }

  /**
   * Successive states of the storage, each produced from the one before by
   * a session whose first call of the hook was for `key`.
   */
  ghost predicate SessionChain(states: seq<map<string, string>>, key: string) {
    forall i :: 0 <= i < |states| - 1 ==> states[i + 1] == Session(states[i], key)
  }

  /** Along a chain of sessions the stored count grows by one per session. */
  lemma {:induction false} SessionsCount(states: seq<map<string, string>>, key: string, i: nat)
    requires SessionChain(states, key) && i < |states|
    ensures StoredCount(states[i], key) == StoredCount(states[0], key) + i
  {
    if i > 0 {
      SessionsCount(states, key, i - 1);
      assert states[i] == Session(states[i - 1], key);
      StoredCountAdvances(states[i - 1], key);
    }
  }

  /**
   * The search results page asks with cadence 5: starting from a storage
   * without the key, the session numbered i (from 0) shows the
   * call-to-action cards exactly when i is a multiple of 5.
   */
  lemma CtaEveryFifthView(states: seq<map<string, string>>, key: string, i: nat)
    requires SessionChain(states, key) && i < |states| && key !in states[0]
    ensures OnCadence(StoredCount(states[i], key), 5) <==> i % 5 == 0
  {
    SessionsCount(states, key, i);
  }
}
