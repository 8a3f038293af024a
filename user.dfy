/**
 * A user record: a uid, a token derived from the password at construction
 * time, and a map of data items each stored encrypted under the password
 * that was presented when it was written. Every access to the data must
 * present a password that re-derives the token.
 */
module Users {
  import opened Errors
  import opened Crypt

  /** Token length used by the two-argument constructor. */
  const DefaultTokenLength := 128

  class User {
    const uid: string
    const tlen: nat
    const token: string
    const encryptor: Encryptor
    var dataMap: map<string, string>
    /** For each key, the plaintext and the password it was written with. */
    ghost var written: map<string, (string, string)>

    /** Every stored value is the encryption of some plaintext under a
        password that is valid for this user: nothing is at rest in a form
        the cipher did not produce. */
    ghost predicate Valid()
      reads this
    {
      && written.Keys == dataMap.Keys
      && forall k | k in dataMap ::
           IsValid(written[k].1) && dataMap[k] == encryptor.execute(written[k].0, written[k].1, Encrypt)
    }

    /** The three-argument constructor on its successful path; `Create`
        models the check that rejects an over-long password. */
    constructor (name: string, password: string, tokenLength: nat, encryptor: Encryptor)
      requires |password| <= tokenLength
      ensures uid == name && tlen == tokenLength && this.encryptor == encryptor
      ensures token == encryptor.createToken(password, tokenLength)
      ensures dataMap == map[] && written == map[] && Valid()
      ensures IsValid(password)
    {
      uid := name;
      tlen := tokenLength;
      this.encryptor := encryptor;
      token := encryptor.createToken(password, tokenLength);
      dataMap := map[];
      written := map[];
    }

    /** `new User(name, password, token_length)`, failing when the password
        is longer than the token. */
    static method Create(name: string, password: string, tokenLength: int, encryptor: Encryptor)
      returns (r: Result<User>)
      ensures r.Failure? <==> |password| > tokenLength
      ensures r.Failure? ==> r.error == PasswordTooLong
      ensures r.Success? ==> fresh(r.value) && IsNewUser(r.value, name, password, tokenLength, encryptor)
    {
      if |password| > tokenLength {
        return Failure(PasswordTooLong);
      }
      var u := new User(name, password, tokenLength, encryptor);
      r := Success(u);
    }

    /** `new User(name, password)`: the three-argument constructor with the
        default token length. */
    static method CreateDefault(name: string, password: string, encryptor: Encryptor)
      returns (r: Result<User>)
      ensures r.Failure? <==> |password| > DefaultTokenLength
      ensures r.Failure? ==> r.error == PasswordTooLong
      ensures r.Success? ==> fresh(r.value) && IsNewUser(r.value, name, password, DefaultTokenLength, encryptor)
    {
      r := Create(name, password, DefaultTokenLength, encryptor);
    }

    /** A password is valid when it re-derives the stored token. */
    predicate IsValid(password: string)
      ensures IsValid(password) <==> encryptor.createToken(password, tlen) == token
    {
      encryptor.createToken(password, tlen) == token
    }

    /** The data map `setData` leaves behind when applied to `m`. */
    function Store(m: map<string, string>, key: string, data: string, password: string)
      : (r: Result<map<string, string>>)
      ensures r.Success? <==> IsValid(password)
      ensures r.Failure? ==> r.error == InvalidPassword
      ensures r.Success? ==> r.value.Keys == m.Keys + {key}
      ensures r.Success? ==> r.value[key] == encryptor.execute(data, password, Encrypt)
      ensures r.Success? ==> forall k | k in m && k != key :: r.value[k] == m[k]
    {
      if !IsValid(password) then Failure(InvalidPassword)
      else Success(m[key := encryptor.execute(data, password, Encrypt)])
    }

    /** What `getData` answers when the data map is `m`. */
    function Retrieve(m: map<string, string>, key: string, password: string): (r: Result<string>)
      ensures r.Success? <==> IsValid(password) && key in m
      ensures !IsValid(password) ==> r == Failure(InvalidPassword)
      ensures IsValid(password) && key !in m ==> r == Failure(KeyNotFound(key))
      ensures r.Success? ==> r.value == encryptor.execute(m[key], password, Decrypt)
    {
      if !IsValid(password) then Failure(InvalidPassword)
      else if key !in m then Failure(KeyNotFound(key))
      else Success(encryptor.execute(m[key], password, Decrypt))
    }

    /** Stores `data` under `key`, encrypted with `password`, provided the
        password is valid; an invalid password changes nothing. */
    method SetData(key: string, data: string, password: string) returns (out: Outcome)
      modifies this
      ensures old(Valid()) ==> Valid()
      ensures out == Pass <==> IsValid(password)
      ensures !IsValid(password) ==> out == Fail(InvalidPassword) && unchanged(this)
      ensures IsValid(password) ==>
        && dataMap == Store(old(dataMap), key, data, password).value
        && written == old(written)[key := (data, password)]
    {
      if !IsValid(password) {
        return Fail(InvalidPassword);
      }
      dataMap := dataMap[key := encryptor.execute(data, password, Encrypt)];
      written := written[key := (data, password)];
      out := Pass;
    }

    /** Decrypts the value stored under `key` with `password`. */
    method GetData(key: string, password: string) returns (r: Result<string>)
      ensures r == Retrieve(dataMap, key, password)
      ensures Valid() && r.Success? && password == written[key].1 && Inverts(encryptor, written[key].0, password)
        ==> r.value == written[key].0
    {
      r := Retrieve(dataMap, key, password);
    }
  }

  /** The state of a user just constructed from these arguments. */
  ghost predicate IsNewUser(u: User, name: string, password: string, tokenLength: int, e: Encryptor)
    reads u
  {
    && u.uid == name && u.tlen == tokenLength && u.encryptor == e
    && u.token == e.createToken(password, u.tlen)
    && u.dataMap == map[] && u.Valid()
    && u.IsValid(password)
  }

  /** The token is only a verifier: a user that accepts a password also
      accepts every password whose derived token collides with it, at any
      point in its life, since the token never changes. */
  lemma CollidingPasswordAccepted(u: User, password: string, other: string)
    requires u.IsValid(password)
    requires u.encryptor.createToken(other, u.tlen) == u.encryptor.createToken(password, u.tlen)
    ensures u.IsValid(other)
  {
  }

  /** Writing then reading a key with the same valid password gives back
      the plaintext passed through encryption and decryption; if the cipher
      inverts on it, the plaintext itself. */
  lemma StoreThenRetrieve(u: User, m: map<string, string>, key: string, data: string, password: string)
    requires u.IsValid(password)
    ensures u.Store(m, key, data, password).Success?
    ensures u.Retrieve(u.Store(m, key, data, password).value, key, password)
         == Success(u.encryptor.execute(u.encryptor.execute(data, password, Encrypt), password, Decrypt))
    ensures Inverts(u.encryptor, data, password) ==>
            u.Retrieve(u.Store(m, key, data, password).value, key, password) == Success(data)
  {
  }

  /** A write to one key does not change what any other key reads as. */
  lemma StoreKeepsOtherKeys(u: User, m: map<string, string>, key: string, data: string,
                            password: string, other: string, reader: string)
    requires u.Store(m, key, data, password).Success? && other != key
    ensures u.Retrieve(u.Store(m, key, data, password).value, other, reader) == u.Retrieve(m, other, reader)
  {
  }
}
