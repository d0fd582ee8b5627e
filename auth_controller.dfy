/**
 * The sign-up and sign-in handlers of the backend. Both look a user up by e-mail;
 * sign-up then hashes the password and stores a new user, sign-in compares the
 * password with the stored hash and issues a two-hour token.
 */
module AuthController {
  import opened Wrappers
  import opened Store
  import opened Http
  import Jwt

  /**
   * The password hasher. `hash` yields None when it throws; `compare` checks a
   * password against a stored hash and yields None when it throws (bcrypt rejects
   * a password that is not a string, such as one missing from the body).
   */
  datatype Hasher = Hasher(hash: string -> Option<string>, compare: (string, string) -> Option<bool>)

  /** `compare` accepts every hash that `hash` produced for the same password. */
  ghost predicate AcceptsOwnHash(h: Hasher) {
    forall p :: h.hash(p).Some? ==> h.compare(p, h.hash(p).value) == Some(true)
  }

  const UserExists := "User already exists"
  const UserCreated := "User created successfully"
  const CreateFailed := "Error creating user"
  const UserNotFound := "User not found"
  const InvalidPassword := "Invalid password"
  const SigninFailed := "Error signing in"

  /** `signup`: reject a known e-mail, otherwise store the new user with the hashed password. */
  method Signup(db: Database, name: string, email: string, password: string, hasher: Hasher, fault: StoreFault)
    returns (res: Response)
    requires db.Valid()
    modifies db
    ensures db.Valid() && db.blogs == old(db.blogs)
    ensures fault != FindThrows && email in old(db.users) ==> res == Response(400, Message(UserExists))
    ensures res.status == 201 <==> fault == Healthy && email !in old(db.users) && hasher.hash(password).Some?
    ensures res.status == 201 ==>
              && res.body == Message(UserCreated)
              && db.users == old(db.users)[email := User(old(db.nextUserId), name, email, hasher.hash(password).value)]
    ensures res.status != 201 ==> db.users == old(db.users)
    ensures res.status == 500 <==>
              fault == FindThrows || (email !in old(db.users) && (hasher.hash(password).None? || fault == CreateThrows))
    ensures res.status == 500 ==> res.body == Message(CreateFailed)
  {
    if fault == FindThrows {
      return Response(500, Message(CreateFailed));
    }
    if email in db.users {
      return Response(400, Message(UserExists));
    }
    var hashed := hasher.hash(password);
    if hashed.None? || fault == CreateThrows {
      return Response(500, Message(CreateFailed));
    }
    var user := User(db.nextUserId, name, email, hashed.value);
    db.users := db.users[email := user];
    db.nextUserId := db.nextUserId + 1;
    res := Response(201, Message(UserCreated));
  }

  /**
   * `signin`: 404 for an unknown e-mail, 400 for a wrong password, otherwise a
   * token and the public user; anything thrown on the way answers 500.
   */
  method Signin(db: Database, email: string, password: string, hasher: Hasher, codec: Jwt.TokenCodec, nowSec: int, fault: StoreFault)
    returns (res: Response)
    requires db.Valid()
    ensures fault == FindThrows ==> res == Response(500, Message(SigninFailed))
    ensures fault != FindThrows && email !in db.users ==> res == Response(404, Message(UserNotFound))
    ensures fault != FindThrows && email in db.users && hasher.compare(password, db.users[email].password) == Some(false) ==>
              res == Response(400, Message(InvalidPassword))
    ensures res.status == 500 <==>
              fault == FindThrows || (email in db.users && hasher.compare(password, db.users[email].password).None?)
    ensures res.status == 500 ==> res.body == Message(SigninFailed)
    ensures res.status == 200 || res.status == 400 || res.status == 404 || res.status == 500
    ensures res.status == 200 <==>
              fault != FindThrows && email in db.users && hasher.compare(password, db.users[email].password) == Some(true)
    ensures res.status == 200 ==>
              var user := db.users[email];
              res.body == SignedIn(Jwt.Issue(codec, user.id, nowSec), PublicUser(user.name, email))
  {
    if fault == FindThrows {
      return Response(500, Message(SigninFailed));
    }
    if email !in db.users {
      return Response(404, Message(UserNotFound));
    }
    var user := db.users[email];
    var matches := hasher.compare(password, user.password);
    if matches.None? {
      return Response(500, Message(SigninFailed));
    }
    if !matches.value {
      return Response(400, Message(InvalidPassword));
    }
    var token := Jwt.Issue(codec, user.id, nowSec);
    res := Response(200, SignedIn(token, PublicUser(user.name, user.email)));
  }

  /**
   * Signing up with a fresh e-mail and then signing in with the same password
   * succeeds, and the token verifies, for two hours, to the id of the new user.
   */
  method SignupThenSignin(db: Database, name: string, email: string, password: string,
                          hasher: Hasher, codec: Jwt.TokenCodec, nowSec: int)
    returns (signedUp: Response, signedIn: Response)
    requires db.Valid() && AcceptsOwnHash(hasher) && Jwt.Sound(codec)
    requires email !in db.users && hasher.hash(password).Some?
    modifies db
    ensures signedUp.status == 201 && signedIn.status == 200 && signedIn.body.SignedIn?
    ensures signedIn.body.user == PublicUser(name, email)
    ensures Jwt.Verify(codec, signedIn.body.token, nowSec) == Some(Jwt.Claims(old(db.nextUserId), nowSec, Some(nowSec + Jwt.Lifetime)))
  {
    signedUp := Signup(db, name, email, password, hasher, Healthy);
    signedIn := Signin(db, email, password, hasher, codec, nowSec, Healthy);
    Jwt.IssuedTokenLifetime(codec, old(db.nextUserId), nowSec, nowSec);
  }
}
