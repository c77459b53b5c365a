/**
 * The key ring object of myc/sec/ed25519.go and ed25519_trust.go: a graph of signed keys with
 * a web of trust that is rebuilt only when it is asked for and stale.
 */
module KeyRing {
  import opened Prelude
  import opened TrustWeb

  datatype Error = NoError | InvalidIdentity | InvalidPublicKey | UnknownIdentity(id: string)
                 | KeyRingLocked | InvalidSignature | InsufficientTrust | EndOfFile

  const PUBLIC_KEY_SIZE: int := 32

  /** What pem.Decode and json.Unmarshal make of the data given to Import. */
  datatype Block =
    | NoBlock
    | Private
    | Public(identity: string, trust: Trust, key: Option<Key>)
    | Other

  // ---------------------------------------------------------------- what the operations do to the keys

  function InitialKeys(): Graph
  {
    map["" := Key([], ULTIMATE, map[])]
  }

  function AddPublicError(identity: string, data: Bytes): Error
  {
    if identity == "" then InvalidIdentity
    else if |data| != PUBLIC_KEY_SIZE then InvalidPublicKey
    else NoError
  }

  function WithPublic(g: Graph, identity: string, trust: Trust, data: Bytes): Graph
  {
    if AddPublicError(identity, data) != NoError then g
    else if identity in g && g[identity].public == data then g[identity := g[identity].(trust := trust)]
    else g[identity := Key(data, trust, map[])]
  }

  function WithoutPublic(g: Graph, identity: string): Graph
  {
    if identity == "" then g else g - {identity}
  }

  /** The crypto library's part in AddSignature: the local signature, or the check of a foreign one. */
  datatype Crypto = Crypto(signed: Option<Bytes>, verified: bool)

  function AddSignatureError(g: Graph, identity: string, from: string, crypto: Crypto): Error
  {
    if identity !in g then UnknownIdentity(identity)
    else if from !in g then UnknownIdentity(from)
    else if from == "" then (if crypto.signed.None? then KeyRingLocked else NoError)
    else if !crypto.verified then InvalidSignature
    else NoError
  }

  function WithSignature(g: Graph, identity: string, from: string, signature: Signature, crypto: Crypto): Graph
  {
    if AddSignatureError(g, identity, from, crypto) != NoError then g else
      var s := if from == "" then Signature(crypto.signed.value, g[identity].trust) else signature;
      g[from := g[from].(signatures := g[from].signatures[identity := s])]
  }

  function ImportError(block: Block, identity: string): Error
  {
    match block
    case NoBlock => EndOfFile
    case Private => if identity != "" then InvalidIdentity else NoError
    case Public(id, _, key) =>
      if key.None? then InvalidSignature
      else if identity != "" && id != "" && id != identity then InvalidIdentity
      else NoError
    case Other => NoError
  }

  /** importUnsafe. */
  function Imported(g: Graph, block: Block, identity: string, trust: Trust): Graph
  {
    if ImportError(block, identity) != NoError || !block.Public? then g else
      var id := if identity != "" then identity else block.identity;
      var level := if identity != "" then trust else if block.identity == "" then ULTIMATE else block.trust;
      g[id := block.key.value.(trust := level)]
  }

  // ---------------------------------------------------------------- what the queries should answer

  /** Trusted: unknown, insufficient, or trusted by the least fixed point of the current keys. */
  ghost function TrustedSpec(g: Graph, identity: string): Error
  {
    if identity !in g then UnknownIdentity(identity)
    else if identity in Trusted(g) then NoError
    else InsufficientTrust
  }

  /** GetSignatures: what exactly the trusted signers have signed. */
  ghost function SignaturesSpec(g: Graph, identity: string): Option<map<string, Signature>>
  {
    if identity !in g then None
    else Some(map s | s in Trusted(g) && s in g && identity in g[s].signatures :: g[s].signatures[identity])
  }

  // ---------------------------------------------------------------- the same, key by key

  /** What `signer` has filed about `signee`. */
  function Filed(g: Graph, signer: string, signee: string): Option<Signature>
  {
    if signer in g && signee in g[signer].signatures then Some(g[signer].signatures[signee]) else None
  }

  /** The same keys with the same public part and own trust. */
  ghost predicate SameKeys(g: Graph, g': Graph)
  {
    g'.Keys == g.Keys && forall k :: k in g ==> g'[k].public == g[k].public && g'[k].trust == g[k].trust
  }

  /** `from` has filed `s` about `identity`, and that is the only difference. */
  ghost predicate OnlyFiled(g: Graph, g': Graph, identity: string, from: string, s: Signature)
  {
    && SameKeys(g, g')
    && Filed(g', from, identity) == Some(s)
    && (forall a, b :: a != from || b != identity ==> Filed(g', a, b) == Filed(g, a, b))
  }

  /** The local signature vouches for the signee's own trust, a foreign one for the level it states. */
  function FiledSignature(g: Graph, identity: string, from: string, signature: Signature, crypto: Crypto): Signature
    requires identity in g && (from == "" ==> crypto.signed.Some?)
  {
    if from == "" then Signature(crypto.signed.value, g[identity].trust) else signature
  }

  /** Both keys are known and the signature could be made, or checked. */
  predicate Signable(g: Graph, identity: string, from: string, crypto: Crypto)
  {
    identity in g && from in g && if from == "" then crypto.signed.Some? else crypto.verified
  }

  lemma SignatureIsFiled(g: Graph, identity: string, from: string, signature: Signature, crypto: Crypto)
    ensures AddSignatureError(g, identity, from, crypto) == NoError <==> Signable(g, identity, from, crypto)
    ensures var g' := WithSignature(g, identity, from, signature, crypto);
            if Signable(g, identity, from, crypto)
            then OnlyFiled(g, g', identity, from, FiledSignature(g, identity, from, signature, crypto))
            else g' == g
  {
  }

  /** All keys but `identity` are as they were. */
  ghost predicate OnlyKey(g: Graph, g': Graph, identity: string)
  {
    forall k :: k != identity ==> (k in g' <==> k in g) && (k in g ==> g'[k] == g[k])
  }

  // ---------------------------------------------------------------- what a signature is good for

  lemma FiledLevels(g: Graph, g': Graph, identity: string, from: string, s: Signature, t: set<string>, k: string)
    requires OnlyFiled(g, g', identity, from, s) && k in g
    ensures k != identity || from !in t ==> Support(g', t, k) == Support(g, t, k)
    ensures k == identity && from in t ==> Support(g', t, k) >= s.trust
  {
    forall a | a != from || k != identity ensures Level(g', k)(a) == Level(g, k)(a) {
      assert Filed(g', a, k) == Filed(g, a, k);
    }
    if k != identity || from !in t {
      SumAgree(t, Level(g', k), Level(g, k));
    } else {
      assert Level(g', k)(from) == s.trust;
      SumPick(t, Level(g', k), from);
      SumMonotone({}, t - {from}, Level(g', k));
    }
  }

  /** The threshold is three: the level HIGH, or what three low signatures add up to. */
  lemma TrustedIff(g: Graph, k: string)
    requires k in g
    ensures k in Trusted(g) <==> g[k].trust + Sum(Trusted(g), Level(g, k)) >= 3
  {
    TrustedIsLeast(g);
    LeastIsFixedPoint(g, Trusted(g), k);
  }

  /**
   * Once a trusted key has signed for `identity` at the threshold, `identity` is trusted, and so is
   * everyone who was trusted before.
   */
  lemma SigningMakesTrusted(g: Graph, g': Graph, identity: string, from: string, s: Signature)
    requires OnlyFiled(g, g', identity, from, s) && identity in g && from in Trusted(g) && s.trust >= 3
    ensures identity in Trusted(g') && Trusted(g) <= Trusted(g')
  {
    TrustedIsLeast(g);
    TrustedIsLeast(g');
    var t := Trusted(g');
    forall k | k in g && Support(g, t, k) >= THRESHOLD ensures k in t {
      FiledLevels(g, g', identity, from, s, t, k);
      assert k in g' && (Support(g', t, k) >= THRESHOLD ==> k in t);
    }
    assert Closed(g, t);
    FiledLevels(g, g', identity, from, s, t, identity);
    assert identity in g' && from in t;
  }

  // ---------------------------------------------------------------- the object

  class KeyRingEd25519 {
    var keys: Graph
    var effective: map<string, Trust>
    var signedBy: map<string, seq<string>>
    var stale: bool

    /** Unless it is stale, the cached web is the one of the current keys. */
    ghost predicate Valid()
      reads this
    {
      !stale ==> Settled(keys, effective, signedBy)
    }

    constructor ()
      ensures Valid() && keys == InitialKeys()
    {
      keys := InitialKeys();
      effective := map["" := ULTIMATE];
      signedBy := map["" := []];
      stale := false;
      new;
      FirstWeb(keys, effective, signedBy);
    }

    /** One signature: the body of the inner loop. */
    method Credit(current: string, signee: string, queue: seq<string>, visited: set<string>)
      returns (queue': seq<string>, visited': set<string>)
      requires current in keys && signee in keys[current].signatures && current in effective
      requires signee in keys ==> signee in effective && signee in signedBy
      modifies this`effective, this`signedBy
      ensures Web(effective, signedBy, visited', queue') ==
              Visit(keys, Web(old(effective), old(signedBy), visited, queue), current, signee)
    {
      queue', visited' := queue, visited;
      if signee !in keys {
        return;
      }
      var signature := keys[current].signatures[signee];
      effective := effective[signee := Add(effective[signee], Min(signature.trust, effective[current]))];
      signedBy := signedBy[signee := signedBy[signee] + [current]];
      if effective[signee] >= THRESHOLD {
        if signee !in visited {
          queue' := queue + [signee];
          visited' := visited + {signee};
        }
      }
    }

    /** The inner loop: everything the current key has signed, in the order of a Go map. */
    method Spread(current: string, queue: seq<string>, visited: set<string>)
      returns (queue': seq<string>, visited': set<string>, ghost order: seq<string>)
      requires current in keys && keys.Keys <= effective.Keys && keys.Keys <= signedBy.Keys
      modifies this`effective, this`signedBy
      ensures Distinct(order) && Elements(order) == keys[current].signatures.Keys
      ensures Web(effective, signedBy, visited', queue') ==
              VisitAll(keys, Web(old(effective), old(signedBy), visited, queue), current, order)
      ensures keys.Keys <= effective.Keys && keys.Keys <= signedBy.Keys
    {
      queue', visited', order := queue, visited, [];
      var todo := keys[current].signatures.Keys;
      while todo != {}
        invariant todo <= keys[current].signatures.Keys
        invariant Distinct(order) && forall k :: k in order <==> k in keys[current].signatures.Keys - todo
        invariant keys.Keys <= effective.Keys && keys.Keys <= signedBy.Keys
        invariant Web(effective, signedBy, visited', queue') ==
                  VisitAll(keys, Web(old(effective), old(signedBy), visited, queue), current, order)
      {
        var signee :| signee in todo;
        todo := todo - {signee};
        assert signee !in order && (order + [signee])[..|order|] == order;
        order := order + [signee];
        queue', visited' := Credit(current, signee, queue', visited');
      }
    }

    /** The initial loop: the keys trusted by the user, in the order of a Go map. */
    method Populate() returns (queue: seq<string>, visited: set<string>)
      modifies this`effective, this`signedBy
      ensures Searching(keys, Web(effective, signedBy, visited, queue), {})
    {
      queue, visited := [], {};
      effective, signedBy := map[], map[];
      ghost var order: seq<string> := [];
      var todo := keys.Keys;
      while todo != {}
        invariant todo <= keys.Keys
        invariant Distinct(order) && forall k :: k in order <==> k in keys.Keys - todo
        invariant Web(effective, signedBy, visited, queue) == EnterAll(keys, Web(map[], map[], {}, []), order)
      {
        var id :| id in todo;
        todo := todo - {id};
        assert id !in order && (order + [id])[..|order|] == order;
        order := order + [id];
        if keys[id].trust >= THRESHOLD {
          queue := queue + [id];
          visited := visited + {id};
        }
        effective := effective[id := keys[id].trust];
        signedBy := signedBy[id := []];
      }
      EnterEvery(keys, order);
      assert Elements(order) == keys.Keys;
      BeginSearch(keys, Web(effective, signedBy, visited, queue));
    }

    /**
     * buildTrustWeb: whatever the order of the map iterations, the search ends, takes each key
     * from the queue at most once and settles on the least trusted set.
     */
    method BuildTrustWeb() returns (ghost dequeued: seq<string>)
      modifies this
      ensures keys == old(keys) && !stale
      ensures Settled(keys, effective, signedBy)
      ensures Distinct(dequeued) && Elements(dequeued) == Trusted(keys)
    {
      var queue, visited := Populate();
      dequeued := [];
      assert Elements(dequeued) == {};
      while |queue| > 0
        invariant keys == old(keys)
        invariant Searching(keys, Web(effective, signedBy, visited, queue), Elements(dequeued))
        invariant Distinct(dequeued)
        decreases keys.Keys - Elements(dequeued)
      {
        ghost var w := Web(effective, signedBy, visited, queue);
        ghost var done := Elements(dequeued);
        NextIsNew(keys, w, done);
        BeginSpread(keys, w, done);
        var current := queue[0];
        queue := queue[1..];
        ghost var order;
        queue, visited, order := Spread(current, queue, visited);
        SpreadAll(keys, w.(queue := w.queue[1..]), done, current, order);
        EndSpread(keys, Web(effective, signedBy, visited, queue), done, current);
        ElementsSnoc(dequeued, current);
        dequeued := dequeued + [current];
      }
      EndSearch(keys, Web(effective, signedBy, visited, queue), Elements(dequeued));
      VisitedIsTrusted(keys, Web(effective, signedBy, visited, queue), Elements(dequeued));
      stale := false;
    }

    method WaitForStaleCleared()
      requires Valid()
      modifies this
      ensures Valid() && !stale && keys == old(keys)
    {
      if stale {
        var _ := BuildTrustWeb();
      }
    }

    /** The lazy answer is the one a fresh computation on the current keys would give. */
    method IsTrusted(identity: string) returns (err: Error)
      requires Valid()
      modifies this
      ensures Valid() && keys == old(keys)
      ensures err == TrustedSpec(keys, identity)
      ensures err == NoError <==> identity in keys && identity in Trusted(keys)
      ensures err == UnknownIdentity(identity) <==> identity !in keys
    {
      WaitForStaleCleared();
      if identity !in keys {
        return UnknownIdentity(identity);
      }
      if effective[identity] < THRESHOLD {
        return InsufficientTrust;
      }
      return NoError;
    }

    method GetSignatures(identity: string) returns (r: Option<map<string, Signature>>)
      requires Valid()
      modifies this
      ensures Valid() && keys == old(keys)
      ensures r == SignaturesSpec(keys, identity)
      ensures r.Some? <==> identity in keys
      ensures r.Some? ==> forall s ::
                if s in Trusted(keys) && Filed(keys, s, identity).Some?
                then s in r.value && Filed(keys, s, identity) == Some(r.value[s])
                else s !in r.value
    {
      WaitForStaleCleared();
      if identity !in keys {
        return None;
      }
      var signatures := CopySignatures(keys, signedBy[identity], identity);
      CopyIsComplete(keys, signedBy[identity], identity, signatures);
      return Some(signatures);
    }

    method AddPublic(identity: string, trust: Trust, data: Bytes) returns (err: Error)
      requires Valid()
      modifies this
      ensures Valid() && err == AddPublicError(identity, data)
      ensures keys == WithPublic(old(keys), identity, trust, data)
      ensures identity == "" ==> err == InvalidIdentity
      ensures identity != "" ==> err == if |data| == 32 then NoError else InvalidPublicKey
      ensures err != NoError ==> keys == old(keys)
      ensures err == NoError ==>
                && identity in keys && keys[identity].public == data && keys[identity].trust == trust
                && OnlyKey(old(keys), keys, identity)
                && keys[identity].signatures ==
                   if identity in old(keys) && old(keys)[identity].public == data
                   then old(keys)[identity].signatures else map[]
    {
      if identity == "" {
        return InvalidIdentity;
      }
      if |data| != PUBLIC_KEY_SIZE {
        return InvalidPublicKey;
      }
      var key := if identity in keys then keys[identity] else Key([], NONE, map[]);
      if key.public != data {
        key := key.(public := data, signatures := map[]);
      }
      keys := keys[identity := key.(trust := trust)];
      stale := true;
      return NoError;
    }

    method RemovePublic(identity: string)
      requires Valid()
      modifies this
      ensures Valid() && keys == WithoutPublic(old(keys), identity)
      ensures OnlyKey(old(keys), keys, identity)
      ensures if identity == "" then keys == old(keys) else identity !in keys
    {
      if identity == "" {
        return;
      }
      keys := keys - {identity};
      stale := true;
    }

    method AddSignature(identity: string, from: string, signature: Signature, crypto: Crypto) returns (err: Error)
      requires Valid()
      modifies this
      ensures Valid() && err == AddSignatureError(old(keys), identity, from, crypto)
      ensures keys == WithSignature(old(keys), identity, from, signature, crypto)
      ensures err == NoError <==> Signable(old(keys), identity, from, crypto)
      ensures err != NoError ==> keys == old(keys)
      ensures err == NoError ==>
                OnlyFiled(old(keys), keys, identity, from,
                          FiledSignature(old(keys), identity, from, signature, crypto))
      ensures identity !in old(keys) ==> err == UnknownIdentity(identity)
      ensures identity in old(keys) && from !in old(keys) ==> err == UnknownIdentity(from)
    {
      SignatureIsFiled(keys, identity, from, signature, crypto);
      if identity !in keys {
        return UnknownIdentity(identity);
      }
      if from !in keys {
        return UnknownIdentity(from);
      }
      var s := signature;
      if from == "" {
        if crypto.signed.None? {
          return KeyRingLocked;
        }
        s := Signature(crypto.signed.value, keys[identity].trust);
      } else if !crypto.verified {
        return InvalidSignature;
      }
      stale := true;
      keys := keys[from := keys[from].(signatures := keys[from].signatures[identity := s])];
      return NoError;
    }

    /** importUnsafe, on the block and key the decoders found. */
    method ImportUnsafe(block: Block, identity: string, trust: Trust) returns (err: Error)
      requires Valid()
      modifies this
      ensures Valid() && err == ImportError(block, identity)
      ensures keys == Imported(old(keys), block, identity, trust)
      ensures err != NoError || !block.Public? ==> keys == old(keys)
      ensures err == NoError && block.Public? ==>
                var id := if identity != "" then identity else block.identity;
                && id in keys && OnlyKey(old(keys), keys, id)
                && block.key.Some? && keys[id].public == block.key.value.public
                && keys[id].signatures == block.key.value.signatures
                && keys[id].trust ==
                   if identity != "" then trust else if block.identity == "" then 255 else block.trust
      ensures err == match block
                     case NoBlock => EndOfFile
                     case Private => if identity == "" then NoError else InvalidIdentity
                     case Public(id, _, key) =>
                       if key == None then InvalidSignature
                       else if identity == "" || id == "" || id == identity then NoError
                       else InvalidIdentity
                     case Other => NoError
    {
      match block {
        case NoBlock => return EndOfFile;
        case Private =>
          if identity != "" {
            return InvalidIdentity;
          }
        case Public(header, level, decoded) =>
          var id := header;
          var lvl := if header == "" then ULTIMATE else level;
          if decoded.None? {
            return InvalidSignature;
          }
          if identity != "" {
            if id != "" && id != identity {
              return InvalidIdentity;
            }
            id := identity;
            lvl := trust;
          }
          keys := keys[id := decoded.value.(trust := lvl)];
        case Other =>
      }
      stale := true;
      return NoError;
    }
  }

  /** The copying loop of GetSignatures. */
  method CopySignatures(g: Graph, signers: seq<string>, identity: string) returns (m: map<string, Signature>)
    requires forall s :: s in signers ==> s in g && identity in g[s].signatures
    ensures forall s :: s in m <==> s in signers
    ensures forall s :: s in m ==> m[s] == g[s].signatures[identity]
  {
    m := map[];
    for i := 0 to |signers|
      invariant forall s :: s in m <==> s in signers[..i]
      invariant forall s :: s in m ==> s in signers && m[s] == g[s].signatures[identity]
    {
      assert signers[..i + 1] == signers[..i] + [signers[i]];
      m := m[signers[i] := g[signers[i]].signatures[identity]];
    }
    assert signers[..|signers|] == signers;
  }

  lemma CopyIsComplete(g: Graph, signers: seq<string>, identity: string, m: map<string, Signature>)
    requires identity in g
    requires forall s :: s in signers <==> s in Trusted(g) && s in g && identity in g[s].signatures
    requires forall s :: s in m <==> s in signers
    requires forall s :: s in m ==> m[s] == g[s].signatures[identity]
    ensures Some(m) == SignaturesSpec(g, identity)
  {
    var spec := SignaturesSpec(g, identity).value;
    forall s ensures s in m <==> s in spec {
    }
    assert m == spec;
  }

  /** The web of a new ring, filled in by hand, is the right one. */
  lemma FirstWeb(g: Graph, effective: map<string, Trust>, signedBy: map<string, seq<string>>)
    requires g == InitialKeys() && effective == map["" := ULTIMATE] && signedBy == map["" := []]
    ensures Settled(g, effective, signedBy)
  {
    TrustedIsLeast(g);
    SupportGrows(g, {}, Trusted(g), "");
    assert Support(g, {}, "") == ULTIMATE;
  }

  /** The head of the queue has not been dequeued before. */
  lemma NextIsNew(g: Graph, w: Web, done: set<string>)
    requires Searching(g, w, done) && w.queue != []
    ensures w.queue[0] in g && w.queue[0] !in done
    ensures g.Keys <= w.effective.Keys && g.Keys <= w.signedBy.Keys
  {
    assert w.queue[0] in w.queue;
    forall k | k in g ensures k in w.effective && k in w.signedBy {
      assert KeyAt(g, w, done, k);
    }
  }

  // ---------------------------------------------------------------- every run

  datatype Request =
    | AddKey(identity: string, trust: Trust, data: Bytes)
    | RemoveKey(identity: string)
    | Sign(identity: string, from: string, signature: Signature, crypto: Crypto)
    | Import(block: Block, identity: string, trust: Trust)
    | AskTrusted(identity: string)
    | AskSignatures(identity: string)

  datatype Reply = Status(err: Error) | Signatures(found: Option<map<string, Signature>>)

  /** The keys after a request, with no cache anywhere. */
  function Replay(g: Graph, r: Request): Graph
  {
    match r
    case AddKey(identity, trust, data) => WithPublic(g, identity, trust, data)
    case RemoveKey(identity) => WithoutPublic(g, identity)
    case Sign(identity, from, signature, crypto) => WithSignature(g, identity, from, signature, crypto)
    case Import(block, identity, trust) => Imported(g, block, identity, trust)
    case AskTrusted(_) => g
    case AskSignatures(_) => g
  }

  function ReplayAll(rs: seq<Request>): Graph
  {
    if rs == [] then InitialKeys() else Replay(ReplayAll(rs[..|rs| - 1]), rs[|rs| - 1])
  }

  lemma ReplaySnoc(rs: seq<Request>, i: nat)
    requires i < |rs|
    ensures ReplayAll(rs[..i + 1]) == Replay(ReplayAll(rs[..i]), rs[i])
  {
    assert rs[..i + 1][..i] == rs[..i];
  }

  /** The reply computed from the keys alone. */
  ghost function Expected(g: Graph, r: Request): Reply
  {
    match r
    case AddKey(identity, trust, data) => Status(AddPublicError(identity, data))
    case RemoveKey(identity) => Status(NoError)
    case Sign(identity, from, signature, crypto) => Status(AddSignatureError(g, identity, from, crypto))
    case Import(block, identity, trust) => Status(ImportError(block, identity))
    case AskTrusted(identity) => Status(TrustedSpec(g, identity))
    case AskSignatures(identity) => Signatures(SignaturesSpec(g, identity))
  }

  method Serve(ring: KeyRingEd25519, r: Request) returns (reply: Reply)
    requires ring.Valid()
    modifies ring
    ensures ring.Valid() && ring.keys == Replay(old(ring.keys), r)
    ensures reply == Expected(old(ring.keys), r)
  {
    match r {
      case AddKey(identity, trust, data) =>
        var e := ring.AddPublic(identity, trust, data);
        reply := Status(e);
      case RemoveKey(identity) =>
        ring.RemovePublic(identity);
        reply := Status(NoError);
      case Sign(identity, from, signature, crypto) =>
        var e := ring.AddSignature(identity, from, signature, crypto);
        reply := Status(e);
      case Import(block, identity, trust) =>
        var e := ring.ImportUnsafe(block, identity, trust);
        reply := Status(e);
      case AskTrusted(identity) =>
        var e := ring.IsTrusted(identity);
        reply := Status(e);
      case AskSignatures(identity) =>
        var m := ring.GetSignatures(identity);
        reply := Signatures(m);
    }
  }

  /** Every reply so far is the expected one. */
  ghost predicate Answered(rs: seq<Request>, replies: seq<Reply>)
  {
    |replies| <= |rs| && forall j :: 0 <= j < |replies| ==> replies[j] == Expected(ReplayAll(rs[..j]), rs[j])
  }

  lemma OneMoreReply(rs: seq<Request>, replies: seq<Reply>, reply: Reply)
    requires Answered(rs, replies) && |replies| < |rs|
    requires reply == Expected(ReplayAll(rs[..|replies|]), rs[|replies|])
    ensures Answered(rs, replies + [reply])
  {
  }

  /** A trusted key signs at the threshold, and the signee is trusted from then on. */
  method SignAndAsk(ring: KeyRingEd25519, identity: string, from: string, signature: Signature, crypto: Crypto)
    returns (signed: Error, trusted: Error)
    requires ring.Valid() && identity in ring.keys && from in Trusted(ring.keys) && from in ring.keys
    requires from != "" && crypto.verified && signature.trust >= 3
    modifies ring
    ensures ring.Valid() && signed == NoError && trusted == NoError
    ensures SameKeys(old(ring.keys), ring.keys) && Level(ring.keys, identity)(from) == signature.trust
  {
    ghost var before := ring.keys;
    signed := ring.AddSignature(identity, from, signature, crypto);
    SigningMakesTrusted(before, ring.keys, identity, from, signature);
    trusted := ring.IsTrusted(identity);
  }

  /**
   * The lazy ring is indistinguishable from one without cache: over any sequence of requests,
   * failing ones included, every reply is the one the least fixed point of the keys at that
   * moment gives.
   */
  method ServeAll(rs: seq<Request>) returns (replies: seq<Reply>)
    ensures |replies| == |rs|
    ensures forall i :: 0 <= i < |rs| ==> replies[i] == Expected(ReplayAll(rs[..i]), rs[i])
  {
    var ring := new KeyRingEd25519();
    replies := [];
    for i := 0 to |rs|
      invariant ring.Valid() && ring.keys == ReplayAll(rs[..i])
      invariant |replies| == i && Answered(rs, replies)
      invariant fresh(ring)
    {
      ReplaySnoc(rs, i);
      var reply := Serve(ring, rs[i]);
      OneMoreReply(rs, replies, reply);
      replies := replies + [reply];
    }
    assert rs[..|rs|] == rs;
  }
}
