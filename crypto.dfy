/**
 * The two foreign libraries the credential code calls, bcryptjs and
 * jsonwebtoken, as records of functions. Their internals (salt, cost factor,
 * signature, expiry clock, the secret key) are not modelled; what the
 * handlers rely on is stated as the soundness predicates below, and every
 * property that needs one takes it as a precondition.
 */
module Crypto {
  import opened Wrappers

  /** The claims the routes put in a token: `{ id, email }`. */
  datatype Claims = Claims(id: nat, email: string)

  /** `jwt.sign(claims, secret, opts)` and `jwt.verify(token, secret)`, with the
      process-wide secret fixed; `verify` yields None where the library throws. */
  datatype Jwt = Jwt(sign: Claims -> string, verify: string -> Option<Claims>)

  /** What the gate and the routes assume of jsonwebtoken: a signed token
      verifies back to its claims, and the compact serialisation is a non-empty
      string without spaces. */
  ghost predicate JwtSound(jwt: Jwt) {
    forall c :: jwt.verify(jwt.sign(c)) == Some(c) && jwt.sign(c) != "" && ' ' !in jwt.sign(c)
  }

  /** `bcrypt.hash(password, 10)` and `bcrypt.compare(password, hash)`. */
  datatype Bcrypt = Bcrypt(hash: string -> string, compare: (string, string) -> bool)

  /** bcrypt reads at most this many bytes of a password. */
  const BcryptMaxLength := 72

  /** The part of a password bcrypt reads: anything past the limit is ignored. */
  function Significant(p: string): (r: string)
    ensures |r| == if |p| <= BcryptMaxLength then |p| else BcryptMaxLength
    ensures r <= p
  {
    if |p| <= BcryptMaxLength then p else p[..BcryptMaxLength]
  }

  /** What the routes assume of bcryptjs: a hash matches exactly the passwords
      that agree with the hashed one on their first 72 characters, and it is
      never the plaintext itself. */
  ghost predicate BcryptSound(b: Bcrypt) {
    && (forall p, q :: b.compare(p, b.hash(q)) <==> Significant(p) == Significant(q))
    && (forall p :: b.hash(p) != p)
  }

  /** A leading character that differs from the first one of `s`. */
  function Mark(s: string): char {
    if |s| > 0 && s[0] == '$' then '#' else '$'
  }

  /** A hash that keeps the significant part behind a distinguishing mark. */
  function MarkedHash(p: string): string {
    [Mark(Significant(p))] + Significant(p)
  }

  function MarkedCompare(p: string, h: string): bool {
    h == MarkedHash(p)
  }

  /** The bcrypt assumptions are consistent: some pair of functions meets them. */
  lemma BcryptSoundSatisfiable()
    ensures exists b :: BcryptSound(b)
  {
    var b := Bcrypt(MarkedHash, MarkedCompare);
    forall p, q ensures b.compare(p, b.hash(q)) <==> Significant(p) == Significant(q) {
      if MarkedHash(p) == MarkedHash(q) {
        assert MarkedHash(p)[1..] == Significant(p) && MarkedHash(q)[1..] == Significant(q);
      }
    }
    forall p ensures b.hash(p) != p {
      if p != [] {
        assert Significant(p)[0] == p[0];
        assert MarkedHash(p)[0] != p[0];
      } else {
        assert |MarkedHash(p)| == 1;
      }
    }
    assert BcryptSound(b);
  }

  /** Under the assumption, a password of at least 72 characters followed by
      anything at all matches its hash. */
  lemma LongPasswordsShareHash(b: Bcrypt, p: string, extra: string)
    requires BcryptSound(b)
    requires |p| >= BcryptMaxLength
    ensures b.compare(p + extra, b.hash(p))
  {
    if extra == [] {
      assert p + extra == p;
    } else {
      assert (p + extra)[..BcryptMaxLength] == p[..BcryptMaxLength];
      assert Significant(p + extra) == Significant(p);
    }
  }

  /** Token text for a claims value: the email with its spaces, dots and
      percent signs tagged, a dot, then the id in unary; never empty, without
      spaces, and readable back. */
  function Encode(c: Claims): string {
    Escape(c.email) + "." + seq(c.id, _ => '1')
  }

  function EscapeChar(c: char): string {
    if c == ' ' then "%s" else if c == '.' then "%d" else if c == '%' then "%p" else [c]
  }

  function Escape(s: string): string {
    if s == [] then [] else EscapeChar(s[0]) + Escape(s[1..])
  }

  /** The jsonwebtoken assumptions are consistent: a signer that encodes the
      claims injectively and a verifier that reads them back meet them. */
  lemma JwtSoundSatisfiable()
    ensures exists jwt :: JwtSound(jwt)
  {
    var verify := (t: string) => if exists c :: Encode(c) == t then Some(Pick(t)) else None;
    var jwt := Jwt(Encode, verify);
    forall c ensures jwt.verify(jwt.sign(c)) == Some(c) && jwt.sign(c) != "" && ' ' !in jwt.sign(c) {
      EncodeInjective(c, Pick(Encode(c)));
      EscapeSpaceFree(c.email);
      assert Encode(c)[|Escape(c.email)|] == '.';
    }
    assert JwtSound(jwt);
  }

  ghost function Pick(t: string): Claims
    requires exists c :: Encode(c) == t
  {
    var c :| Encode(c) == t; c
  }

  lemma {:induction false} EscapeSpaceFree(s: string)
    ensures ' ' !in Escape(s) && '.' !in Escape(s)
  {
    if s != [] { EscapeSpaceFree(s[1..]); }
  }

  lemma EscapeCharPrefix(a: char, b: char, x: string, y: string)
    requires EscapeChar(a) + x == EscapeChar(b) + y
    ensures a == b && x == y
  {
    var ha, hb := EscapeChar(a), EscapeChar(b);
    assert (ha + x)[0] == ha[0] && (hb + y)[0] == hb[0];
    if |ha| == |hb| {
      assert ha == (ha + x)[..|ha|] && hb == (hb + y)[..|hb|];
      assert x == (ha + x)[|ha|..] && y == (hb + y)[|hb|..];
    }
  }

  lemma {:induction false} EscapeInjective(s: string, t: string)
    requires Escape(s) == Escape(t)
    ensures s == t
  {
    if s != [] && t != [] {
      EscapeCharPrefix(s[0], t[0], Escape(s[1..]), Escape(t[1..]));
      EscapeInjective(s[1..], t[1..]);
      assert s == [s[0]] + s[1..] && t == [t[0]] + t[1..];
    }
  }

  lemma EncodeInjective(c: Claims, d: Claims)
    requires Encode(c) == Encode(d)
    ensures c == d
  {
    EscapeSpaceFree(c.email);
    EscapeSpaceFree(d.email);
    var ec, ed := Escape(c.email), Escape(d.email);
    assert Encode(c)[|ec|] == '.' && Encode(d)[|ed|] == '.';
    assert ec == Encode(c)[..|ec|] && ed == Encode(d)[..|ed|];
    EscapeInjective(c.email, d.email);
    assert |Encode(c)| == |ec| + 1 + c.id && |Encode(d)| == |ed| + 1 + d.id;
  }
}
