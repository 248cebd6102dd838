/** Signing and verifying bootstrap flags (security/security.go), for any message authentication code. */
module Bootstrap {
  import opened Canonical
  import opened Common
  import opened Json
  import opened JsonRoundTrip
  import opened Text

  type Mac = (string, string) -> string

  /** A Go map of flags: nil, or a map. */
  datatype Flags = NilFlags | Flags(fields: map<string, Value>) {
    function Fields(): map<string, Value> {
      if NilFlags? then map[] else fields
    }
  }

  datatype Bootstrap = Bootstrap(flags: Flags, signature: string, timestamp: int)

  /** `maxAge` is a time.Duration, in nanoseconds. */
  datatype Config = Config(enabled: bool, maxAge: int)

  datatype Verdict = Valid | Expired | FromFuture | Mismatch

  const NANOS_PER_MILLI := 1_000_000
  const CLOCK_SKEW_MS := 300_000

  ghost function Message(timestamp: int, flags: Flags): string {
    FormatInt(timestamp) + "." + Print(Obj(flags.Fields()))
  }

  method CanonicalizeObject(flags: Flags) returns (s: string)
    ensures s == Print(Obj(flags.Fields()))
  {
    if flags.NilFlags? {
      assert KeyOrder({}) == [];
      return "{}";
    }
    s := CanonicalizeValue(Obj(flags.fields));
  }

  ghost function Sign(flags: Flags, apiKey: string, now: int, mac: Mac): Bootstrap {
    Bootstrap(flags, mac(Message(now, flags), apiKey), now)
  }

  method CreateBootstrapSignature(flags: Flags, apiKey: string, now: int, mac: Mac) returns (b: Bootstrap)
    ensures b == Sign(flags, apiKey, now, mac)
  {
    var canonical := CanonicalizeObject(flags);
    b := Bootstrap(flags, mac(FormatInt(now) + "." + canonical, apiKey), now);
  }

  /** The age test applies only to a positive maximum age and a positive timestamp. */
  predicate AgeAccepted(timestamp: int, config: Config, now: int) {
    config.maxAge > 0 && timestamp > 0 ==> -CLOCK_SKEW_MS <= now - timestamp <= config.maxAge / NANOS_PER_MILLI
  }

  method VerifyBootstrapSignature(b: Bootstrap, apiKey: string, config: Config, now: int, mac: Mac) returns (v: Verdict)
    ensures v.Valid? <==> Accepts(b, apiKey, config, now, mac)
    ensures v.Expired? || v.FromFuture? ==> !AgeAccepted(b.timestamp, config, now)
    ensures v.Expired? ==> now > b.timestamp
    ensures v.FromFuture? ==> now < b.timestamp
    ensures v.Mismatch? ==>
      AgeAccepted(b.timestamp, config, now) && b.signature != mac(Message(b.timestamp, b.flags), apiKey)
  {
    if !config.enabled || b.signature == "" {
      return Valid;
    }
    if config.maxAge > 0 && b.timestamp > 0 {
      var age := now - b.timestamp;
      if age > config.maxAge / NANOS_PER_MILLI {
        return Expired;
      }
      if age < -CLOCK_SKEW_MS {
        return FromFuture;
      }
    }
    var canonical := CanonicalizeObject(b.flags);
    var expected := mac(FormatInt(b.timestamp) + "." + canonical, apiKey);
    v := if b.signature != expected then Mismatch else Valid;
  }

  ghost predicate Accepts(b: Bootstrap, apiKey: string, config: Config, now: int, mac: Mac) {
    || !config.enabled
    || b.signature == ""
    || (AgeAccepted(b.timestamp, config, now) && b.signature == mac(Message(b.timestamp, b.flags), apiKey))
  }

  predicate IntegerChar(c: char) {
    IsDigit(c) || c == '-'
  }

  lemma FormatIntChars(n: int)
    ensures AllIn(FormatInt(n), IntegerChar)
  {
    assert AllIn(Decimal(if n < 0 then -n else n), IsDigit);
  }

  lemma SplitAtDot(a: string, p: string, b: string, q: string)
    requires AllIn(a, IntegerChar) && AllIn(b, IntegerChar)
    requires a + "." + p == b + "." + q
    ensures a == b && p == q
  {
    assert a + "." + p == a + ("." + p);
    assert b + "." + q == b + ("." + q);
    TokenBoundary(a, b, "." + p, "." + q, IntegerChar);
    assert p == ("." + p)[1..] == ("." + q)[1..] == q;
  }

  /** The signed message is the timestamp in decimal, a dot, and the flags as JSON. */
  lemma MessageReads(timestamp: int, flags: Flags)
    ensures var m := Message(timestamp, flags);
      var dot := Find(m, '.');
      && dot < |m| && ReadNumber(m[..dot]) == Some(Int(timestamp))
      && Read(m[dot + 1..]) == Some(Obj(flags.Fields()))
  {
    var digits, text := FormatInt(timestamp), Print(Obj(flags.Fields()));
    FormatIntChars(timestamp);
    FindFirst(digits, '.', text);
    assert Message(timestamp, flags) == digits + ['.'] + text;
    assert Message(timestamp, flags)[..|digits|] == digits && Message(timestamp, flags)[|digits| + 1..] == text;
    IntReads(timestamp);
    PrintReads(Obj(flags.Fields()));
  }

  /** The accepted ages of a dated signature: from five minutes in the future up to the maximum age, which
      is counted in nanoseconds. */
  lemma AcceptedAges(timestamp: int, config: Config, now: int)
    requires config.maxAge > 0 && timestamp > 0
    ensures AgeAccepted(timestamp, config, now) <==>
      now - timestamp >= -5 * 60 * 1000 && 1_000_000 * (now - timestamp) <= config.maxAge
  {
  }

  /** The signed message determines the timestamp and the flags. */
  lemma MessageInjective(t: int, flags: Flags, u: int, other: Flags)
    requires Message(t, flags) == Message(u, other)
    ensures t == u && flags.Fields() == other.Fields()
  {
    var p, q := Print(Obj(flags.Fields())), Print(Obj(other.Fields()));
    FormatIntChars(t);
    FormatIntChars(u);
    SplitAtDot(FormatInt(t), p, FormatInt(u), q);
    FormatIntInjective(t, u);
    PrintInjective(Obj(flags.Fields()), Obj(other.Fields()));
  }

  /** Signing and then verifying under the same key accepts exactly while the age is within bounds, for
      every code, although the two calls range over the maps in their own orders. */
  method SignThenVerify(flags: Flags, apiKey: string, signedAt: int, config: Config, now: int, mac: Mac)
    returns (v: Verdict)
    ensures v.Valid? <==>
      || !config.enabled
      || mac(Message(signedAt, flags), apiKey) == ""
      || AgeAccepted(signedAt, config, now)
    ensures !v.Mismatch?
  {
    var b := CreateBootstrapSignature(flags, apiKey, signedAt, mac);
    v := VerifyBootstrapSignature(b, apiKey, config, now, mac);
  }

  /** Two different messages with one code under the key. */
  predicate Collision(mac: Mac, apiKey: string, m: string, n: string) {
    m != n && mac(m, apiKey) == mac(n, apiKey)
  }

  /** A signature made for some flags at some time is accepted with a bootstrap if and only if the age is
      within bounds and the bootstrap holds those flags and that time, or the two messages collide. */
  lemma SignatureBinds(
      signed: Bootstrap, flags: Flags, apiKey: string, signedAt: int, config: Config, now: int, mac: Mac)
    requires config.enabled
    requires signed.signature == Sign(flags, apiKey, signedAt, mac).signature != ""
    ensures Accepts(signed, apiKey, config, now, mac) <==>
      && AgeAccepted(signed.timestamp, config, now)
      && (|| (signed.timestamp == signedAt && signed.flags.Fields() == flags.Fields())
          || Collision(mac, apiKey, Message(signed.timestamp, signed.flags), Message(signedAt, flags)))
  {
    if Message(signed.timestamp, signed.flags) == Message(signedAt, flags) {
      MessageInjective(signed.timestamp, signed.flags, signedAt, flags);
    }
  }
}
