/**
 Who may send a request: addresses on the whitelist, with the password and the
 XXH32 hash of the target.
 */
module Authorization {
  import opened Wrappers
  import opened Words
  import opened Inputs
  import Xxh32
  import Xxh32Reads
  import Xxh32Answers

  /** The body of a request, as far as it is decoded for the check. */
  datatype Body = Body(password: string, hash: u32)

  /** `body` is None where decoding throws. */
  datatype Request = Request(target: string, remote: string, body: Option<Body>)

  /** What the password and the seed of a handler are set to. */
  datatype Secret = Secret(password: string, seed: u32)

  /** The CPU, a compile-time choice, and where the target lies: none of them matters. */
  datatype Machine = Machine(cpu: Endian, forceAlignCheck: bool, address: nat)

  predicate Authorized(whitelist: seq<string>, secret: Secret, request: Request) {
    && (whitelist == [] || request.remote in whitelist)
    && request.body.Some?
    && request.body.value.password == secret.password
    && request.body.value.hash == Xxh32.Hash(secret.seed, BytesOf(request.target))
  }

  /** One thing changed in an authorized request: it is refused unless that thing does not matter. */
  lemma OneChange(whitelist: seq<string>, secret: Secret, r: Request, password: string, hash: u32, remote: string)
    requires Authorized(whitelist, secret, r)
    ensures Authorized(whitelist, secret, r.(body := Some(Body(password, r.body.value.hash)))) <==>
      password == secret.password
    ensures Authorized(whitelist, secret, r.(body := Some(Body(r.body.value.password, hash)))) <==>
      hash == Xxh32.Hash(secret.seed, BytesOf(r.target))
    ensures Authorized(whitelist, secret, r.(remote := remote)) <==> whitelist == [] || remote in whitelist
    ensures !Authorized(whitelist, secret, r.(body := None))
  {
    hide Xxh32.Hash, BytesOf;
  }

  /** The one hash that goes with `/misc/say` under the seed 0. */
  lemma SayIsAuthorized(password: string, hash: u32, remote: string)
    ensures Authorized([], Secret(password, 0), Request("/misc/say", remote, Some(Body(password, hash)))) <==>
      hash == 0x1c5bb0ba
  {
    hide Xxh32.Hash;
    Xxh32Answers.Say();
    SayBytes();
  }

  lemma SayBytes()
    ensures BytesOf("/misc/say") == Xxh32Answers.SAY
  {
    hide ByteOf;
    SayCharacters();
  }

  lemma SayCharacters()
    ensures ByteOf('/') == 0x2f && ByteOf('m') == 0x6d && ByteOf('i') == 0x69 && ByteOf('s') == 0x73
    ensures ByteOf('c') == 0x63 && ByteOf('a') == 0x61 && ByteOf('y') == 0x79
  {
    hide ByteOf;
    ByteIsCode('/');
    ByteIsCode('m');
    ByteIsCode('i');
    ByteIsCode('s');
    ByteIsCode('c');
    ByteIsCode('a');
    ByteIsCode('y');
  }

  /**
   A body that is good for one target is good for no other that differs from it
   inside one word of four bytes.
   */
  lemma BodyFitsOneTarget(whitelist: seq<string>, secret: Secret, r: Request, r': Request, i: nat)
    requires Authorized(whitelist, secret, r) && r'.body == r.body && r'.remote == r.remote
    requires i < Whole4(|r.target|)
    requires DifferOnlyIn(BytesOf(r.target), BytesOf(r'.target), 4 * i, 4 * i + 4)
    ensures Authorized(whitelist, secret, r') <==> BytesOf(r'.target) == BytesOf(r.target)
  {
    hide BytesOf, DifferOnlyIn, Whole4;
    Xxh32Reads.NoWordCollision(secret.seed, BytesOf(r.target), BytesOf(r'.target), i);
  }
}
