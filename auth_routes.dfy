/**
 * POST /register and POST /login over the `empleados` table. The table is a
 * map from the email as the database compares it (case-insensitively) to
 * the row; each statement the handlers issue is numbered and a fault script
 * decides which statements fail (and with what text).
 */
module AuthRoutes {
  import opened Wrappers
  import opened Crypto
  import opened Http

  const ServerErrorMsg := "Error en el servidor"
  const UserExistsMsg := "El usuario ya existe"
  const BadCredentialsMsg := "Credenciales inválidas"
  const CreatedMsg := "Usuario creado exitosamente"
  const LoginOkMsg := "Login exitoso"

  /** A row of `empleados`; `password` holds what was stored, a bcrypt hash. */
  datatype User = User(id: nat, nombre: string, email: string, password: string, puesto: string)

  function Lower(c: char): char {
    if 'A' <= c <= 'Z' then (c as int + 32) as char else c
  }

  /** The email as `WHERE email = ?` compares it under a case-insensitive
      collation: two emails select the same rows exactly when their keys agree. */
  function Key(email: string): (k: string)
    ensures |k| == |email| && forall i :: 0 <= i < |email| ==> k[i] == Lower(email[i])
  {
    seq(|email|, i requires 0 <= i < |email| => Lower(email[i]))
  }

  /** Two addresses that differ only in the case of ASCII letters, stated letter
      by letter without reference to `Key`. */
  predicate SameLetter(c: char, d: char) {
    || c == d
    || ('A' <= c <= 'Z' && d == (c as int + 32) as char)
    || ('A' <= d <= 'Z' && c == (d as int + 32) as char)
  }

  predicate SameIgnoringCase(a: string, b: string) {
    |a| == |b| && forall i :: 0 <= i < |a| ==> SameLetter(a[i], b[i])
  }

  /** Keys agree exactly when the addresses agree up to ASCII letter case. */
  lemma {:induction false} KeyIgnoresCase(a: string, b: string)
    ensures Key(a) == Key(b) <==> SameIgnoringCase(a, b)
  {
    if Key(a) == Key(b) {
      forall i | 0 <= i < |a| ensures SameLetter(a[i], b[i]) {
        assert Key(a)[i] == Key(b)[i];
      }
    }
    if SameIgnoringCase(a, b) {
      forall i | 0 <= i < |a| ensures Key(a)[i] == Key(b)[i] {
        assert SameLetter(a[i], b[i]);
      }
    }
  }

  /** A key is its own key: the stored key of a row matches itself. */
  lemma {:induction false} KeyIdempotent(a: string)
    ensures Key(Key(a)) == Key(a)
  {
    forall i | 0 <= i < |a| ensures Key(Key(a))[i] == Key(a)[i] {
      assert Key(a)[i] == Lower(a[i]);
    }
  }

  /** Case variants of one address are the same address to the database. */
  lemma KeyExample()
    ensures Key("Ana@X.com") == Key("ana@x.com") && Key("ana@x.com") != Key("ana@y.com")
  {
    assert Key("ana@x.com")[4] != Key("ana@y.com")[4];
  }

  /** The table's state: rows by email key, the next AUTO_INCREMENT id, and how
      many statements have been issued against it. */
  datatype Store = Store(users: map<string, User>, nextId: nat, statements: nat)

  /** Rows are keyed by their own email's key, and ids are distinct and below
      the next AUTO_INCREMENT value. */
  predicate StoreValid(s: Store) {
    && (forall e :: e in s.users ==> Key(s.users[e].email) == e && s.users[e].id < s.nextId)
    && (forall e1, e2 :: e1 in s.users && e2 in s.users && e1 != e2 ==> s.users[e1].id != s.users[e2].id)
  }

  /** The user object sent back: every field of the row but the password. */
  function Public(u: User): PublicUser {
    PublicUser(u.id, u.nombre, u.email, u.puesto)
  }

  datatype RegisterBody = RegisterBody(nombre: string, email: string, password: string, puesto: string)

  /** POST /register: look the email up, reject a duplicate, hash the password,
      insert the row, and answer with a token for `{ id: insertId, email }`. */
  function Register(s: Store, faults: nat -> Option<string>, body: RegisterBody, bcrypt: Bcrypt, jwt: Jwt): (r: (Store, Reply))
    ensures r.1.status in {201, 400, 500}
    ensures r.1.status == 500 ==> r.1.body == Message(ServerErrorMsg)
    ensures r.1.status == 400 <==> faults(s.statements).None? && Key(body.email) in s.users
    ensures r.1.status == 400 ==> r.1.body == Message(UserExistsMsg)
    ensures r.1.status == 201 <==> faults(s.statements).None? && Key(body.email) !in s.users && faults(s.statements + 1).None?
    ensures r.1.status != 201 ==> r.0.users == s.users && r.0.nextId == s.nextId
    ensures r.1.status == 201 ==>
              && r.0.users == s.users[Key(body.email) := User(s.nextId, body.nombre, body.email, bcrypt.hash(body.password), body.puesto)]
              && r.0.nextId == s.nextId + 1
              && r.1.body == Session(CreatedMsg, jwt.sign(Claims(s.nextId, body.email)),
                                     PublicUser(s.nextId, body.nombre, body.email, body.puesto))
    ensures StoreValid(s) ==> StoreValid(r.0)
  {
    var k := s.statements;
    if faults(k).Some? then
      (s.(statements := k + 1), Reply(500, Message(ServerErrorMsg)))
    else if Key(body.email) in s.users then
      (s.(statements := k + 1), Reply(400, Message(UserExistsMsg)))
    else
      var hashed := bcrypt.hash(body.password);
      if faults(k + 1).Some? then
        (s.(statements := k + 2), Reply(500, Message(ServerErrorMsg)))
      else
        var id := s.nextId;
        var row := User(id, body.nombre, body.email, hashed, body.puesto);
        (Store(s.users[Key(body.email) := row], id + 1, k + 2),
         Reply(201, Session(CreatedMsg, jwt.sign(Claims(id, body.email)), PublicUser(id, body.nombre, body.email, body.puesto))))
  }

  /** POST /login: look the email up, compare the password with the stored hash,
      and answer with a token for `{ id, email }` of the row found. */
  function Login(s: Store, faults: nat -> Option<string>, email: string, password: string, bcrypt: Bcrypt, jwt: Jwt): (r: (Store, Reply))
    ensures r.0 == s.(statements := s.statements + 1)
    ensures r.1.status in {200, 400, 500}
    ensures r.1.status == 500 <==> faults(s.statements).Some?
    ensures r.1.status == 500 ==> r.1.body == Message(ServerErrorMsg)
    ensures r.1.status == 200 <==>
              faults(s.statements).None? && Key(email) in s.users && bcrypt.compare(password, s.users[Key(email)].password)
    ensures r.1.status == 400 ==> r.1.body == Message(BadCredentialsMsg)
    ensures r.1.status == 200 ==>
              var user := s.users[Key(email)];
              r.1.body == Session(LoginOkMsg, jwt.sign(Claims(user.id, user.email)), Public(user))
  {
    var s' := s.(statements := s.statements + 1);
    if faults(s.statements).Some? then
      (s', Reply(500, Message(ServerErrorMsg)))
    else if Key(email) !in s.users then
      (s', Reply(400, Message(BadCredentialsMsg)))
    else
      var user := s.users[Key(email)];
      if !bcrypt.compare(password, user.password) then
        (s', Reply(400, Message(BadCredentialsMsg)))
      else
        (s', Reply(200, Session(LoginOkMsg, jwt.sign(Claims(user.id, user.email)), Public(user))))
  }

  /** An unknown email and a wrong password get the very same reply. */
  lemma LoginRejectionsIndistinguishable(s: Store, t: Store, faults: nat -> Option<string>, email: string, password: string,
                                         other: string, guess: string, bcrypt: Bcrypt, jwt: Jwt)
    requires faults(s.statements).None? && Key(email) !in s.users
    requires faults(t.statements).None? && Key(other) in t.users && !bcrypt.compare(guess, t.users[Key(other)].password)
    ensures Login(s, faults, email, password, bcrypt, jwt).1 == Login(t, faults, other, guess, bcrypt, jwt).1
            == Reply(400, Message(BadCredentialsMsg))
  {
  }

  /** What a successful registration stores is the hash, never the plaintext, and
      it matches the password registered. */
  lemma RegisterStoresHash(s: Store, faults: nat -> Option<string>, body: RegisterBody, bcrypt: Bcrypt, jwt: Jwt)
    requires BcryptSound(bcrypt)
    requires Register(s, faults, body, bcrypt, jwt).1.status == 201
    ensures var stored := Register(s, faults, body, bcrypt, jwt).0.users[Key(body.email)].password;
            stored != body.password && bcrypt.compare(body.password, stored)
  {
    var stored := Register(s, faults, body, bcrypt, jwt).0.users[Key(body.email)].password;
    assert stored == bcrypt.hash(body.password);
    assert Significant(body.password) == Significant(body.password);
  }

  /** An address that differs from a registered one only in letter case is a
      duplicate: 400 "El usuario ya existe" and the table is unchanged. */
  lemma CaseVariantIsDuplicate(s: Store, faults: nat -> Option<string>, body: RegisterBody, existing: string,
                               bcrypt: Bcrypt, jwt: Jwt)
    requires faults(s.statements).None? && Key(existing) in s.users && SameIgnoringCase(body.email, existing)
    ensures var r := Register(s, faults, body, bcrypt, jwt);
            r.1 == Reply(400, Message(UserExistsMsg)) && r.0.users == s.users && r.0.nextId == s.nextId
  {
    KeyIgnoresCase(body.email, existing);
  }

  /** Registration's token verifies to the new row's id and email. A login right
      after it, under any letter case of the address, is accepted exactly when
      the password agrees with the registered one on its first 72 characters;
      it then returns the registered user and a token for the same claims. */
  lemma RegisterThenLogin(s: Store, faults: nat -> Option<string>, body: RegisterBody, email: string, guess: string,
                          bcrypt: Bcrypt, jwt: Jwt)
    requires BcryptSound(bcrypt) && JwtSound(jwt)
    requires Register(s, faults, body, bcrypt, jwt).1.status == 201
    requires faults(s.statements + 2).None? && Key(email) == Key(body.email)
    ensures var r := Register(s, faults, body, bcrypt, jwt);
            var l := Login(r.0, faults, email, guess, bcrypt, jwt).1;
            && jwt.verify(r.1.body.token) == Some(Claims(s.nextId, body.email))
            && (l.status == 200 <==> Significant(guess) == Significant(body.password))
            && (l.status == 200 ==>
                  l.body.user == r.1.body.user && jwt.verify(l.body.token) == Some(Claims(s.nextId, body.email)))
            && (l.status != 200 ==> l == Reply(400, Message(BadCredentialsMsg)))
  {
  }

  /** bcrypt's limit seen from the routes: after registering a password of at
      least 72 characters, logging in with it followed by anything succeeds. */
  lemma LongPasswordSuffixIgnored(s: Store, faults: nat -> Option<string>, body: RegisterBody, extra: string,
                                  bcrypt: Bcrypt, jwt: Jwt)
    requires BcryptSound(bcrypt)
    requires Register(s, faults, body, bcrypt, jwt).1.status == 201
    requires faults(s.statements + 2).None? && |body.password| >= BcryptMaxLength
    ensures Login(Register(s, faults, body, bcrypt, jwt).0, faults, body.email, body.password + extra, bcrypt, jwt).1.status == 200
  {
    LongPasswordsShareHash(bcrypt, body.password, extra);
  }

  /** The `empleados` table as the handlers see it through the driver. */
  class Empleados {
    var users: map<string, User>
    var nextId: nat
    var statements: nat
    /** Statement number k fails with this error text, if any. */
    const faults: nat -> Option<string>

    function State(): Store
      reads this
    {
      Store(users, nextId, statements)
    }

    constructor (faults: nat -> Option<string>)
      ensures State() == Store(map[], 1, 0) && this.faults == faults
    {
      users := map[];
      nextId := 1;
      statements := 0;
      this.faults := faults;
    }

    /** `SELECT * FROM empleados WHERE email = ?` */
    method SelectByEmail(email: string) returns (error: Option<string>, results: seq<User>)
      modifies this
      ensures users == old(users) && nextId == old(nextId) && statements == old(statements) + 1
      ensures error == faults(old(statements))
      ensures results == if error.None? && Key(email) in users then [users[Key(email)]] else []
    {
      error := faults(statements);
      results := if error.None? && Key(email) in users then [users[Key(email)]] else [];
      statements := statements + 1;
    }

    /** `INSERT INTO empleados (nombre, email, password, puesto) VALUES (?, ?, ?, ?)` */
    method Insert(nombre: string, email: string, password: string, puesto: string) returns (error: Option<string>, insertId: nat)
      modifies this
      ensures statements == old(statements) + 1
      ensures error == faults(old(statements))
      ensures error.Some? ==> users == old(users) && nextId == old(nextId)
      ensures error.None? ==> insertId == old(nextId) && nextId == old(nextId) + 1
                              && users == old(users)[Key(email) := User(insertId, nombre, email, password, puesto)]
    {
      error := faults(statements);
      statements := statements + 1;
      insertId := nextId;
      if error.None? {
        users := users[Key(email) := User(insertId, nombre, email, password, puesto)];
        nextId := nextId + 1;
      }
    }
  }

  /** The /register handler: lookup, duplicate check, hash, insert, token, reply. */
  method HandleRegister(db: Empleados, res: Response, body: RegisterBody, bcrypt: Bcrypt, jwt: Jwt)
    modifies db, res
    ensures db.State() == Register(old(db.State()), db.faults, body, bcrypt, jwt).0
    ensures res.replies == old(res.replies) + [Register(old(db.State()), db.faults, body, bcrypt, jwt).1]
  {
    var error, results := db.SelectByEmail(body.email);
    if error.Some? {
      res.Send(Reply(500, Message(ServerErrorMsg)));
      return;
    }
    if |results| > 0 {
      res.Send(Reply(400, Message(UserExistsMsg)));
      return;
    }
    var hashedPassword := bcrypt.hash(body.password);
    var insertError, insertId := db.Insert(body.nombre, body.email, hashedPassword, body.puesto);
    if insertError.Some? {
      res.Send(Reply(500, Message(ServerErrorMsg)));
      return;
    }
    var token := jwt.sign(Claims(insertId, body.email));
    res.Send(Reply(201, Session(CreatedMsg, token, PublicUser(insertId, body.nombre, body.email, body.puesto))));
  }

  /** The /login handler: lookup, password compare, token, reply. */
  method HandleLogin(db: Empleados, res: Response, email: string, password: string, bcrypt: Bcrypt, jwt: Jwt)
    modifies db, res
    ensures db.State() == Login(old(db.State()), db.faults, email, password, bcrypt, jwt).0
    ensures res.replies == old(res.replies) + [Login(old(db.State()), db.faults, email, password, bcrypt, jwt).1]
  {
    var error, results := db.SelectByEmail(email);
    if error.Some? {
      res.Send(Reply(500, Message(ServerErrorMsg)));
      return;
    }
    if |results| == 0 {
      res.Send(Reply(400, Message(BadCredentialsMsg)));
      return;
    }
    var user := results[0];
    var isPasswordValid := bcrypt.compare(password, user.password);
    if !isPasswordValid {
      res.Send(Reply(400, Message(BadCredentialsMsg)));
      return;
    }
    var token := jwt.sign(Claims(user.id, user.email));
    res.Send(Reply(200, Session(LoginOkMsg, token, Public(user))));
  }
}
