# uman: a password-gated user store, modelled in Dafny

The Java package `eu.zoho.chaotx.uman` keeps a registry of users
(`UserManager`) and, per user, a map of data items (`User`). A user is
created with a uid, a password and a token length; only the token derived
from the password is kept. Every read or write of the user's data must
present a password that re-derives that token; values are stored
encrypted under the presented password. The registry maps each uid to one
`User` instance, refuses a second registration of a uid, and keeps a
single logged-in pointer that `login` sets only for the registered
instance with a valid password and `logout` clears.

Files:

- `errors.dfy` (module `Errors`): the failures, as values (`Error`), and the
  `Outcome` / `Result` types the operations return instead of throwing.
- `crypt.dfy` (module `Crypt`): the interface of the encryptor the user
  record uses. `Encryptor` holds two deterministic functions,
  `createToken(password, length)` and `execute(text, key, direction)`;
  `Direction` names the two combining functions (`Encrypt` for the adding
  one, `Decrypt` for the subtracting one). The cipher's round-trip law is
  the predicate `Inverts`, which lemmas take as an explicit precondition.
- `user.dfy` (module `Users`): class `User`. `uid`, `tlen`, `token` and the
  encryptor are `const` fields, so they cannot change after construction;
  they also stand for `getUid` and `getToken`. `dataMap` is the mutable
  map. The ghost field `written` records, per key, the plaintext and the
  password a value was written with, and `Valid()` states that each stored
  value is the encryption of its plaintext under a password valid for the
  user. `Store` and `Retrieve` are the pure specifications of `setData` and
  `getData` over a given data map.
- `user_manager.dfy` (module `UserRegistry`): the registry state as a value
  (`State`), its invariant `Consistent`, the pure specifications of
  `addUser`, `login` and `logout` (`Register`, `Authenticate`,
  `ClearSession`), a call sequence semantics (`Apply`, `Replay`) with
  lemmas over any sequence of calls, and class `UserManager`, whose methods
  are proved against those functions.

Java's `new User(...)` either throws or yields an object. Here the
constructor covers the successful path and requires a password no longer
than the token; the static methods `Create` and `CreateDefault` model the
constructors as callers see them, including the `PasswordTooLong` failure.

The token generator and cipher are passed to the user's constructor as an
`Encryptor` value. The Java constructor instead builds an alphanumeric
encryptor itself. Their algorithms live in `eu.zoho.chaotx.crypt`, which
is not part of this model.

## Model

| member | source | states |
|---|---|---|
| `Users.User.constructor` | src/main/java/eu/zoho/chaotx/uman/User.java:39-53 | on an admissible password: uid is the name, tlen the token length, token is the token derived from the password, the data map is empty, and the construction password is valid |
| `Users.User.Create` | src/main/java/eu/zoho/chaotx/uman/User.java:39-53 | fails with PasswordTooLong exactly when the password is longer than the token length; otherwise yields a fresh user in the constructed state |
| `Users.User.CreateDefault` | src/main/java/eu/zoho/chaotx/uman/User.java:64-66 | the same outcome as the three-argument constructor with token length 128 |
| `Users.User.Store` | src/main/java/eu/zoho/chaotx/uman/User.java:95-98 | succeeds iff the password is valid, else InvalidPassword; on success the key set grows by exactly the key, the key holds the encryption of the data under the password, and every other key is unchanged |
| `Users.User.Retrieve` | src/main/java/eu/zoho/chaotx/uman/User.java:109-112 | InvalidPassword on an invalid password, KeyNotFound on an absent key, otherwise the decryption of the stored value under the password |
| `Users.User.SetData` | src/main/java/eu/zoho/chaotx/uman/User.java:95-98 | an invalid password returns the error and changes nothing; a valid one overwrites the key with its ciphertext as Store says; callable on any user, and keeps the invariant that every stored value is ciphertext under a valid password whenever it held before |
| `Users.User.GetData` | src/main/java/eu/zoho/chaotx/uman/User.java:109-112 | returns what Retrieve says of the current map without changing it, on any user; when the ciphertext invariant holds, a read with the password that wrote the value, under a cipher that inverts, returns the plaintext written |
| `Users.User.IsValid` | src/main/java/eu/zoho/chaotx/uman/User.java:120-122 | true iff the token re-derived from the password at `tlen` equals `token`; what is proved about it is that the construction password is valid (the constructor) and that a colliding password is accepted too (`CollidingPasswordAccepted`) |
| `Users.CollidingPasswordAccepted` | src/main/java/eu/zoho/chaotx/uman/User.java:120-122 | a user that accepts a password also accepts every password whose derived token collides with it, whatever data it holds |
| `Users.StoreThenRetrieve` | src/main/java/eu/zoho/chaotx/uman/User.java:95-112 | a write then a read of the same key with the same valid password yields the data encrypted then decrypted; under the round-trip law, the data itself |
| `Users.StoreKeepsOtherKeys` | src/main/java/eu/zoho/chaotx/uman/User.java:97 | a successful write leaves what every other key reads as unchanged, for any reading password |
| `UserRegistry.Register` | src/main/java/eu/zoho/chaotx/uman/UserManager.java:47-53 | fails with AlreadyRegistered iff the uid is present; on success the key set grows by exactly the uid, the uid maps to the user, all other entries and the logged-in user are unchanged, and the invariant is kept |
| `UserRegistry.Authenticate` | src/main/java/eu/zoho/chaotx/uman/UserManager.java:73-81 | NotRegistered unless the user is the very instance stored under its uid; InvalidPassword for a registered instance with an invalid password; otherwise the logged-in user becomes the user, the map is unchanged and the invariant is kept |
| `UserRegistry.ClearSession` | src/main/java/eu/zoho/chaotx/uman/UserManager.java:86-88 | the logged-in user becomes null, the map is unchanged, the invariant is kept |
| `UserRegistry.Apply` | src/main/java/eu/zoho/chaotx/uman/UserManager.java:47-88 | any single call keeps the invariant, never removes a uid and never replaces a registered instance |
| `UserRegistry.ReplayConsistent` | src/main/java/eu/zoho/chaotx/uman/UserManager.java:47-88 | every key maps to a user with that uid, and the logged-in user is the registered instance, after any sequence of addUser, login and logout calls |
| `UserRegistry.ReplayKeepsRegistrations` | src/main/java/eu/zoho/chaotx/uman/UserManager.java:47-53 | after any sequence of calls every uid registered before is still registered to the same instance |
| `UserRegistry.LogoutIdempotent` | src/main/java/eu/zoho/chaotx/uman/UserManager.java:86-88 | logging out twice leaves the same state as logging out once |
| `UserRegistry.OtherInstanceRejected` | src/main/java/eu/zoho/chaotx/uman/UserManager.java:74-75 | a different instance with a registered uid is refused with NotRegistered, whatever its password |
| `UserRegistry.UserManager.constructor` | src/main/java/eu/zoho/chaotx/uman/UserManager.java:34-40 | the registry starts with an empty map and nobody logged in |
| `UserRegistry.UserManager.AddUser` | src/main/java/eu/zoho/chaotx/uman/UserManager.java:47-53 | a taken uid returns AlreadyRegistered and changes nothing; a fresh uid is mapped to the user with everything else unchanged; the invariant is kept |
| `UserRegistry.UserManager.GetUserMap` | src/main/java/eu/zoho/chaotx/uman/UserManager.java:60-62 | the returned map maps each key to a user with that uid |
| `UserRegistry.UserManager.Login` | src/main/java/eu/zoho/chaotx/uman/UserManager.java:73-81 | the map never changes; a non-registered instance or an invalid password returns its error and leaves the logged-in user as it was; otherwise the logged-in user becomes the user |
| `UserRegistry.UserManager.Logout` | src/main/java/eu/zoho/chaotx/uman/UserManager.java:86-88 | the logged-in user becomes null and the map is unchanged |
| `UserRegistry.UserManager.GetLoggedInUser` | src/main/java/eu/zoho/chaotx/uman/UserManager.java:96-98 | the returned user, when not null, is the instance registered under its uid |

## Left out

- `save` and `load` (UserManager.java:103-140): Java object serialization to a file, with I/O errors only printed. Since `load` replaces the map wholesale, it could leave the logged-in user pointing at an instance the new map does not hold; the `Consistent` invariant holds only because `load` is not modelled.
- The file path argument of the `UserManager` constructor and the directory creation it performs: filesystem plumbing. The model's constructor never fails, whereas Java's throws a `NullPointerException` when the file does not exist and the path has no parent directory (`getParentFile()` returns null at UserManager.java:38-39).
- Failures inside the crypt package: `createToken` and `execute` are modelled as total functions that never fail. A failure inside them is not modelled, such as a cipher that rejects characters outside its alphabet or an empty key, which the constructor allows as a password. So the claims that `Store` and `SetData` succeed exactly when the password is valid, and that `Retrieve` and `GetData` succeed exactly when the password is valid and the key is present, hold only if the encryptor never throws. In Java such an exception would reach the caller of `setData`/`getData` after the password check (User.java:97, 111).
- The algorithms of `Encryptor.createToken` and `Encryptor.execute` and the alphanumeric alphabet: `eu.zoho.chaotx.crypt` is not part of this model. Both are arbitrary deterministic functions, and the round-trip law is the explicit assumption `Inverts`.
- `Users.User.GetData`: an absent key is reported as `KeyNotFound`. The Java code passes `null` to `execute`, whose behaviour is defined in `eu.zoho.chaotx.crypt`, outside this model.
- Null arguments: the model excludes null uids, keys, data and passwords, which the Java code partly accepts. A null uid is stored as is (User.java:49), such a user can be registered and log in because `HashMap` accepts a null key (UserManager.java:48, 52, 74), and a null key reaches `dataMap.put`/`dataMap.get` (User.java:97, 111). In `User.java` and `UserManager.java`, only a null password in the constructor (User.java:40) a null user in `addUser`/`login`, and a null file path in the `UserManager` constructor (UserManager.java:36) throw a `NullPointerException`.
- `Users.User.Create`: the Java token length is a 32-bit `int`; the model takes an unbounded integer. The password length is also counted differently: Java's `password.length()` (User.java:40) counts UTF-16 code units, while the model's `|password|` counts Unicode scalar values. A password of one character outside the Basic Multilingual Plane with token length 1 is rejected by Java (length 2) but accepted by `Create`. Java strings holding unpaired surrogates cannot be represented at all.
- `UserRegistry.UserManager.GetUserMap`: `Collections.unmodifiableMap` (UserManager.java:61) returns a live read-only view, so a caller holding it sees later registrations; the model returns a snapshot of the map at the time of the call.
- `toString`, `serialVersionUID` and `Serializable`: boilerplate.
