/**
 * The device fingerprint: the browser's identifying strings joined with '|', hashed with the
 * 31-multiplier string hash in signed 32-bit arithmetic and written as the hexadecimal of the
 * hash's magnitude; and its storage under a per-user key, with the check that the stored value
 * matches a fresh one. The browser properties are parameters and the storage is a map.
 */
module DeviceFingerprint {
  import opened Optional
  import opened Numbers
  import opened Utf16Text

  /** What the fingerprint reads from the browser. */
  datatype Environment = Environment(
    userAgent: string,
    screenWidth: int,
    screenHeight: int,
    colorDepth: int,
    timezone: string,
    language: string)

  /** `${width}x${height}x${colorDepth}`. */
  function ScreenInfo(env: Environment): string {
    IntToDecimal(env.screenWidth) + "x" + IntToDecimal(env.screenHeight) + "x" + IntToDecimal(env.colorDepth)
  }

  /** The four components in their fixed order, separated by '|'. */
  function FingerprintString(env: Environment): (s: string)
    ensures |s| == |env.userAgent| + |ScreenInfo(env)| + |env.timezone| + |env.language| + 3
  {
    Join(env.userAgent, ScreenInfo(env), env.timezone, env.language)
  }

  function Join(a: string, b: string, c: string, d: string): (s: string)
    ensures |s| == |a| + |b| + |c| + |d| + 3
    ensures s[|a|] == '|' && s[|a| + |b| + 1] == '|' && s[|a| + |b| + |c| + 2] == '|'
    ensures s[..|a|] == a
  {
    a + "|" + b + "|" + c + "|" + d
  }

  predicate NoBar(s: string) {
    forall i :: 0 <= i < |s| ==> s[i] != '|'
  }

  /** Text without '|' ends at the first '|'. */
  lemma SplitAtBar(x: string, y: string, r: string, r': string)
    requires NoBar(x) && NoBar(y) && x + "|" + r == y + "|" + r'
    ensures x == y && r == r'
  {
    var s, s' := x + "|" + r, y + "|" + r';
    FirstBar(x, r);
    FirstBar(y, r');
    if |x| < |y| {
      assert false;
    } else if |y| < |x| {
      assert false;
    }
    assert x == s[..|x|] && y == s'[..|y|];
    assert r == s[|x| + 1..] && r' == s'[|y| + 1..];
  }

  /** The first '|' after text without one is the separator. */
  lemma FirstBar(x: string, r: string)
    requires NoBar(x)
    ensures (x + "|" + r)[|x|] == '|'
    ensures forall i :: 0 <= i < |x| ==> (x + "|" + r)[i] != '|'
  {
  }

  /** When no component contains '|' (as with the screen part, which has only digits, '-' and
      'x'), different components give different fingerprint strings. */
  lemma JoinSeparates(a: string, b: string, c: string, d: string, a': string, b': string, c': string, d': string)
    requires NoBar(a) && NoBar(b) && NoBar(c) && NoBar(a') && NoBar(b') && NoBar(c')
    requires Join(a, b, c, d) == Join(a', b', c', d')
    ensures a == a' && b == b' && c == c' && d == d'
  {
    JoinShape(a, b, c, d);
    JoinShape(a', b', c', d');
    SplitAtBar(a, a', b + "|" + (c + "|" + d), b' + "|" + (c' + "|" + d'));
    SplitAtBar(b, b', c + "|" + d, c' + "|" + d');
    SplitAtBar(c, c', d, d');
  }

  /** The joined string, grouped from the right. */
  lemma JoinShape(a: string, b: string, c: string, d: string)
    ensures Join(a, b, c, d) == a + "|" + (b + "|" + (c + "|" + d))
  {
    assert a + "|" + b + "|" + c + "|" + d == a + "|" + (b + "|" + (c + "|" + d));
  }

  // ===== The hash =====

  /** The hash of a sequence of code units: h0 = 0 and h(i+1) = ToInt32(31 h(i) + unit i). */
  function HashSpec(units: seq<int>): (h: int)
    ensures IsInt32(h)
  {
    if units == [] then 0 else ToInt32(31 * HashSpec(units[..|units| - 1]) + units[|units| - 1])
  }

  /** `(hash << 5) - hash + char` followed by `hash & hash` is 31 hash + char modulo 2^32. */
  lemma ShiftStep(h: int, c: int)
    ensures ToInt32(ToInt32(h * 32) - h + c) == ToInt32(31 * h + c)
  {
    var shifted := ToInt32(h * 32);
    var k := (shifted - h * 32) / TwoTo32;
    assert shifted == h * 32 + k * TwoTo32;
    ToInt32Congruent(31 * h + c, k);
  }

  /** `hash << 5`: the low 32 bits of 32 hash, read as a signed value. */
  function ShiftLeft5(h: int): (r: int)
    ensures IsInt32(r)
    ensures (r - 32 * h) % TwoTo32 == 0
  {
    ToInt32(h * 32)
  }

  /** The loop of `generateDeviceFingerprint` over the code units. */
  method Hash(units: seq<int>) returns (hash: int)
    ensures hash == HashSpec(units)
    ensures IsInt32(hash)
  {
    hash := 0;
    var i := 0;
    while i < |units|
      invariant 0 <= i <= |units|
      invariant hash == HashSpec(units[..i])
      invariant IsInt32(hash)
    {
      var unit := units[i];
      var next := ShiftLeft5(hash) - hash + unit;
      ShiftStep(hash, unit);
      hash := ToInt32(next);
      assert units[..i + 1][..i] == units[..i];
      i := i + 1;
    }
    assert units[..i] == units;
  }

  /** `Math.abs(hash).toString(16)` of the hash of the fingerprint string. */
  function Fingerprint(env: Environment): string {
    ToRadixString(Abs(HashSpec(CodeUnits(FingerprintString(env)))), 16)
  }

  /** The fingerprint is a non-empty lower-case hexadecimal numeral without leading zeros whose
      value is the magnitude of a signed 32-bit hash, so at most 2^31. */
  lemma FingerprintIsHex(env: Environment)
    ensures var fp := Fingerprint(env);
      && fp != ""
      && (forall k :: 0 <= k < |fp| ==> DigitOf(fp[k], 16) < 16)
      && (|fp| > 1 ==> fp[0] != '0')
      && ParseRadix(fp, 16) == Abs(HashSpec(CodeUnits(FingerprintString(env))))
      && ParseRadix(fp, 16) <= TwoTo31
  {
    ParseToRadixString(Abs(HashSpec(CodeUnits(FingerprintString(env)))), 16);
  }

  /** `generateDeviceFingerprint`, with the browser's values passed in. */
  method GenerateDeviceFingerprint(env: Environment) returns (fingerprint: string)
    ensures fingerprint == Fingerprint(env)
    ensures fingerprint != ""
  {
    var fingerprintString := FingerprintString(env);
    var hash := Hash(CodeUnits(fingerprintString));
    fingerprint := ToRadixString(Abs(hash), 16);
  }

  // ===== Storage =====

  /** The storage key of a user. */
  function Key(userId: string): (key: string)
    ensures |key| == 19 + |userId|
    ensures key[..19] == "device_fingerprint_" && key[19..] == userId
  {
    "device_fingerprint_" + userId
  }

  lemma KeysSeparateUsers(u: string, v: string)
    ensures Key(u) == Key(v) <==> u == v
  {
    if Key(u) == Key(v) {
      assert u == Key(u)[19..];
    }
  }

  /** `storeDeviceFingerprint` on the storage contents. */
  function StoreFingerprint(storage: map<string, string>, userId: string, env: Environment): (updated: map<string, string>)
    ensures Key(userId) in updated && updated[Key(userId)] == Fingerprint(env)
    ensures forall k :: k != Key(userId) ==> (k in updated <==> k in storage)
    ensures forall k :: k != Key(userId) && k in storage ==> updated[k] == storage[k]
  {
    storage[Key(userId) := Fingerprint(env)]
  }

  /** `validateDeviceFingerprint` on the storage contents: false when nothing (or the empty
      string) is stored, otherwise whether the stored value equals a fresh fingerprint. */
  function ValidateFingerprint(storage: map<string, string>, userId: string, env: Environment): (ok: bool)
    ensures Key(userId) !in storage ==> !ok
    ensures ok <==> Key(userId) in storage && storage[Key(userId)] == Fingerprint(env)
  {
    if Key(userId) !in storage || storage[Key(userId)] == "" then false
    else storage[Key(userId)] == Fingerprint(env)
  }

  /** Storing and then validating in the same environment succeeds. */
  lemma StoreThenValidate(storage: map<string, string>, userId: string, env: Environment)
    ensures ValidateFingerprint(StoreFingerprint(storage, userId, env), userId, env)
  {
  }

  /** Storing for one user does not change whether another user validates. */
  lemma StoreKeepsOtherUsers(storage: map<string, string>, userId: string, other: string, env: Environment, env': Environment)
    requires other != userId
    ensures ValidateFingerprint(StoreFingerprint(storage, userId, env), other, env') ==
            ValidateFingerprint(storage, other, env')
  {
    KeysSeparateUsers(userId, other);
  }

  /** The browser's local storage. */
  class FingerprintStore {
    var storage: map<string, string>

    constructor(initial: map<string, string>)
      ensures storage == initial
    {
      storage := initial;
    }

    method Store(userId: string, env: Environment)
      modifies this
      ensures storage == StoreFingerprint(old(storage), userId, env)
    {
      var fingerprint := GenerateDeviceFingerprint(env);
      storage := storage[Key(userId) := fingerprint];
    }

    method Validate(userId: string, env: Environment) returns (ok: bool)
      ensures ok == ValidateFingerprint(storage, userId, env)
    {
      var key := Key(userId);
      if key !in storage || storage[key] == "" {
        return false;
      }
      var current := GenerateDeviceFingerprint(env);
      ok := storage[key] == current;
    }
  }
}
