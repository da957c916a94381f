/**
 The registry of backups (internal/registry): claiming a bucket for one key,
 with any number of clients racing to do so, and recording jobs in it.
 */
module Registry {
  import opened Wrappers
  import opened Scores

  type Metadata = map<string, string>

  /** The objects of the bucket, by name. All that matters here is in their metadata. */
  type Objects = map<string, Metadata>

  const MARKER_NAME := "marker"
  const MARKER_SALT := "base64_salt"
  const MARKER_CIPHERTEXT := "base64_ciphertext"

  /** Key derivation, the authenticated cipher, and base64. */
  datatype Cipher<!Key> = Cipher(
    derive: (string, Bytes) -> Key,
    usable: Key -> bool,
    encrypt: (Key, Bytes) -> Option<Bytes>,
    decrypt: (Key, Bytes) -> Option<Bytes>,
    encode: Bytes -> string,
    decode: string -> Option<Bytes>)

  /** Decryption undoes encryption, and decoding undoes encoding. */
  ghost predicate CipherSound<Key(!new)>(c: Cipher<Key>) {
    && (forall k, p :: c.encrypt(k, p).Some? ==> c.decrypt(k, c.encrypt(k, p).value) == Some(p))
    && (forall b :: c.decode(c.encode(b)) == Some(b))
  }

  /** The ideal of authentication: no ciphertext is authentic under two keys. */
  ghost predicate Authenticates<Key(!new)>(c: Cipher<Key>) {
    forall k, k', ct :: c.decrypt(k, ct).Some? && c.decrypt(k', ct).Some? ==> k == k'
  }

  /** The key that the password gives with the salt of the marker, if it opens the marker. */
  function VerifyCompatible<Key>(c: Cipher<Key>, marker: Metadata, password: string): Option<Key> {
    if MARKER_SALT !in marker || MARKER_CIPHERTEXT !in marker then None
    else
      var salt, ct := c.decode(marker[MARKER_SALT]), c.decode(marker[MARKER_CIPHERTEXT]);
      if salt.None? || ct.None? then None
      else
        var key := c.derive(password, salt.value);
        if c.usable(key) && c.decrypt(key, ct.value).Some? then Some(key) else None
  }

  /** The marker that claims the bucket for the password, made from random bytes. */
  function NewMarker<Key>(c: Cipher<Key>, password: string, salt: Bytes, plaintext: Bytes): Option<Metadata> {
    var key := c.derive(password, salt);
    if !c.usable(key) || c.encrypt(key, plaintext).None? then None
    else Some(map[MARKER_SALT := c.encode(salt), MARKER_CIPHERTEXT := c.encode(c.encrypt(key, plaintext).value)])
  }

  lemma NewMarkerIsCompatible<Key(!new)>(c: Cipher<Key>, password: string, salt: Bytes, plaintext: Bytes)
    requires CipherSound(c) && NewMarker(c, password, salt, plaintext).Some?
    ensures VerifyCompatible(c, NewMarker(c, password, salt, plaintext).value, password)
         == Some(c.derive(password, salt))
  {
    var key := c.derive(password, salt);
    var ct := c.encrypt(key, plaintext).value;
    assert c.decode(c.encode(ct)) == Some(ct) && c.decode(c.encode(salt)) == Some(salt);
    assert MARKER_SALT[7] == 's' && MARKER_CIPHERTEXT[7] == 'c';
  }

  // ---- Clients racing ----

  /** A client that has not looked, has found no marker, has the bucket with a key, or has failed. */
  datatype Client<Key> = Starting | NoMarkerSeen | Open(key: Key, created: bool) | Refused

  datatype World<Key> = World(objects: Objects, clients: seq<Client<Key>>)

  /** How a request fares: answered, or lost before or after it took effect. */
  datatype Fate = Answered | LostBefore | LostAfter

  /**
   StatMarker: look for the marker, and check it if it is there. Claim: create
   one if there still is none. Record: create the object of a job if there is none.
   */
  datatype Step =
    | StatMarker(client: nat, fate: Fate)
    | Claim(client: nat, salt: Bytes, plaintext: Bytes, fate: Fate)
    | Record(client: nat, name: string, job: Metadata, fate: Fate)

  const JOB_PREFIX := "jobs/"

  predicate Possible<Key(==)>(w: World<Key>, step: Step) {
    && step.client < |w.clients|
    && match step
       case StatMarker(i, _) => w.clients[i] == Starting
       case Claim(i, _, _, _) => w.clients[i] == NoMarkerSeen
       case Record(i, name, _, _) => w.clients[i].Open? && JOB_PREFIX <= name
  }

  /** Creation with a generation precondition of zero. */
  function CreateIfAbsent(objects: Objects, name: string, metadata: Metadata, fate: Fate): Objects {
    if name in objects || fate == LostBefore then objects else objects[name := metadata]
  }

  function StatOutcome<Key>(c: Cipher<Key>, objects: Objects, password: string, fate: Fate): Client<Key> {
    if fate != Answered then Refused
    else if MARKER_NAME !in objects then NoMarkerSeen
    else
      match VerifyCompatible(c, objects[MARKER_NAME], password)
      case None => Refused
      case Some(key) => Open(key, false)
  }

  function Apply<Key(==)>(c: Cipher<Key>, passwords: seq<string>, w: World<Key>, step: Step): World<Key>
    requires Possible(w, step) && |passwords| == |w.clients|
  {
    match step
    case StatMarker(i, fate) =>
      w.(clients := w.clients[i := StatOutcome(c, w.objects, passwords[i], fate)])
    case Claim(i, salt, plaintext, fate) =>
      (match NewMarker(c, passwords[i], salt, plaintext)
       case None => w.(clients := w.clients[i := Refused])
       case Some(marker) =>
         World(CreateIfAbsent(w.objects, MARKER_NAME, marker, fate),
               w.clients[i := if MARKER_NAME !in w.objects && fate == Answered
                              then Open(c.derive(passwords[i], salt), true)
                              else Refused]))
    case Record(i, name, job, fate) =>
      w.(objects := CreateIfAbsent(w.objects, name, job, fate))
  }

  ghost predicate StepAt<Key>(c: Cipher<Key>, passwords: seq<string>, ws: seq<World<Key>>, steps: seq<Step>, i: int) {
    && 0 <= i < |steps| && i + 1 < |ws| && |passwords| == |ws[i].clients|
    && Possible(ws[i], steps[i]) && ws[i + 1] == Apply(c, passwords, ws[i], steps[i])
  }

  /** Clients with these passwords, started on a bucket with these objects. */
  ghost predicate IsRun<Key>(c: Cipher<Key>, passwords: seq<string>, objects: Objects,
                             ws: seq<World<Key>>, steps: seq<Step>)
  {
    && |ws| == |steps| + 1
    && ws[0] == World(objects, seq(|passwords|, _ => Starting))
    && forall i {:trigger StepAt(c, passwords, ws, steps, i)} :: 0 <= i < |steps| ==> StepAt(c, passwords, ws, steps, i)
  }

  // ---- One client ----

  class GcsBucket {
    var objects: Objects

    method StatObject(name: string, fate: Fate) returns (r: Result<Option<Metadata>, Error>)
      ensures r.Success? <==> fate == Answered
      ensures r.Success? ==> r.value == if name in objects then Some(objects[name]) else None
    {
      if fate != Answered {
        return Failure("StatObject");
      }
      return Success(if name in objects then Some(objects[name]) else None);
    }

    method CreateObject(name: string, metadata: Metadata, fate: Fate) returns (ok: bool)
      modifies this
      ensures objects == CreateIfAbsent(old(objects), name, metadata, fate)
      ensures ok <==> name !in old(objects) && fate == Answered
    {
      if name in objects || fate == LostBefore {
        return false;
      }
      objects := objects[name := metadata];
      return fate == Answered;
    }

    /** The first half of newGCSRegistry, up to where another client may come in between. */
    method LookForMarker<Key>(c: Cipher<Key>, password: string, fate: Fate) returns (client: Client<Key>)
      ensures client == StatOutcome(c, objects, password, fate)
    {
      var o := StatObject(MARKER_NAME, fate);
      if o.Failure? {
        return Refused;
      }
      if o.value.None? {
        return NoMarkerSeen;
      }
      var key := VerifyCompatible(c, o.value.value, password);
      return if key.Some? then Open(key.value, false) else Refused;
    }

    /** The second half, whatever has happened since. */
    method ClaimBucket<Key>(c: Cipher<Key>, password: string, salt: Bytes, plaintext: Bytes, fate: Fate)
      returns (client: Client<Key>)
      modifies this
      ensures var before := World(old(objects), [NoMarkerSeen]);
        World(objects, [client]) == Apply(c, [password], before, Claim(0, salt, plaintext, fate))
      ensures client == (if fate == Answered && MARKER_NAME !in old(objects) && NewMarker(c, password, salt, plaintext).Some?
                         then Open(c.derive(password, salt), true) else Refused)
    {
      var key := c.derive(password, salt);
      if !c.usable(key) {
        return Refused;
      }
      var ct := c.encrypt(key, plaintext);
      if ct.None? {
        return Refused;
      }
      var metadata: Metadata := map[MARKER_SALT := c.encode(salt), MARKER_CIPHERTEXT := c.encode(ct.value)];
      var ok := CreateObject(MARKER_NAME, metadata, fate);
      return if ok then Open(key, true) else Refused;
    }
  }

  // ---- What every step keeps ----

  /** An open client opens the marker that is in the bucket, with its own key. */
  ghost predicate ClientOk<Key>(c: Cipher<Key>, objects: Objects, password: string, client: Client<Key>) {
    client.Open? ==>
      MARKER_NAME in objects && VerifyCompatible(c, objects[MARKER_NAME], password) == Some(client.key)
  }

  ghost predicate Inv<Key>(c: Cipher<Key>, passwords: seq<string>, w: World<Key>) {
    && |w.clients| == |passwords|
    && (forall i :: 0 <= i < |w.clients| ==> ClientOk(c, w.objects, passwords[i], w.clients[i]))
    && (forall i, j :: 0 <= i < j < |w.clients| ==> !(Created(w.clients[i]) && Created(w.clients[j])))
  }

  predicate Created<Key>(client: Client<Key>) {
    client.Open? && client.created
  }

  /** Objects are never changed nor removed. */
  ghost predicate Grows(before: Objects, after: Objects) {
    forall name :: name in before ==> name in after && after[name] == before[name]
  }

  /** A creation takes effect if and only if there is no such object and the request has arrived. */
  lemma CreationIsExact(objects: Objects, name: string, metadata: Metadata, fate: Fate, other: string)
    ensures var after := CreateIfAbsent(objects, name, metadata, fate);
      && (name !in objects && fate != LostBefore ==> name in after && after[name] == metadata)
      && (name in objects || fate == LostBefore ==> after == objects)
      && (other != name ==> (other in after <==> other in objects) && (other in objects ==> after[other] == objects[other]))
  {
  }

  lemma StepGrows<Key>(c: Cipher<Key>, passwords: seq<string>, w: World<Key>, step: Step)
    requires Possible(w, step) && |passwords| == |w.clients|
    ensures Grows(w.objects, Apply(c, passwords, w, step).objects)
  {
  }

  lemma StepKeepsInv<Key(!new)>(c: Cipher<Key>, passwords: seq<string>, w: World<Key>, step: Step)
    requires CipherSound(c) && Inv(c, passwords, w) && Possible(w, step)
    ensures Inv(c, passwords, Apply(c, passwords, w, step))
  {
    var w' := Apply(c, passwords, w, step);
    StepGrows(c, passwords, w, step);
    if step.Claim? && NewMarker(c, passwords[step.client], step.salt, step.plaintext).Some? {
      NewMarkerIsCompatible(c, passwords[step.client], step.salt, step.plaintext);
    }
    forall i | 0 <= i < |w'.clients|
      ensures ClientOk(c, w'.objects, passwords[i], w'.clients[i])
    {
      assert ClientOk(c, w.objects, passwords[i], w.clients[i]);
    }
    forall i, j | 0 <= i < j < |w'.clients|
      ensures !(Created(w'.clients[i]) && Created(w'.clients[j]))
    {
      assert ClientOk(c, w.objects, passwords[i], w.clients[i]);
      assert ClientOk(c, w.objects, passwords[j], w.clients[j]);
    }
  }

  lemma {:induction false} RunKeepsInv<Key(!new)>(c: Cipher<Key>, passwords: seq<string>, objects: Objects,
                                                  ws: seq<World<Key>>, steps: seq<Step>, i: nat)
    requires CipherSound(c) && IsRun(c, passwords, objects, ws, steps) && i < |ws|
    ensures Inv(c, passwords, ws[i])
  {
    if i > 0 {
      RunKeepsInv(c, passwords, objects, ws, steps, i - 1);
      assert StepAt(c, passwords, ws, steps, i - 1);
      StepKeepsInv(c, passwords, ws[i - 1], steps[i - 1]);
    }
  }

  /** Neither the marker nor any recorded job ever changes, once written. */
  lemma {:induction false} ObjectsAreFinal<Key(!new)>(c: Cipher<Key>, passwords: seq<string>, objects: Objects,
                                                      ws: seq<World<Key>>, steps: seq<Step>, i: nat, j: nat)
    requires IsRun(c, passwords, objects, ws, steps) && i <= j < |ws|
    ensures Grows(ws[i].objects, ws[j].objects)
  {
    if i < j {
      ObjectsAreFinal(c, passwords, objects, ws, steps, i, j - 1);
      assert StepAt(c, passwords, ws, steps, j - 1);
      StepGrows(c, passwords, ws[j - 1], steps[j - 1]);
    }
  }

  /**
   Whoever has the bucket opens its marker with the key that it holds; at most
   one has written the marker; and all of them hold the same key, if no
   ciphertext is authentic under two.
   */
  lemma ClaimIsExclusive<Key(!new)>(c: Cipher<Key>, passwords: seq<string>, objects: Objects,
                                    ws: seq<World<Key>>, steps: seq<Step>, n: nat, i: nat, j: nat)
    requires CipherSound(c) && IsRun(c, passwords, objects, ws, steps) && n < |ws|
    requires |ws[n].clients| == |passwords| && i < |passwords| && j < |passwords|
    requires ws[n].clients[i].Open? && ws[n].clients[j].Open?
    ensures MARKER_NAME in ws[n].objects
    ensures VerifyCompatible(c, ws[n].objects[MARKER_NAME], passwords[i]) == Some(ws[n].clients[i].key)
    ensures i != j ==> !(ws[n].clients[i].created && ws[n].clients[j].created)
    ensures Authenticates(c) ==> ws[n].clients[i].key == ws[n].clients[j].key
  {
    RunKeepsInv(c, passwords, objects, ws, steps, n);
    assert ClientOk(c, ws[n].objects, passwords[i], ws[n].clients[i]);
    assert ClientOk(c, ws[n].objects, passwords[j], ws[n].clients[j]);
    if i != j {
      var a, b := if i < j then i else j, if i < j then j else i;
      assert !(Created(ws[n].clients[a]) && Created(ws[n].clients[b]));
    }
  }

  // ---- Who gets the bucket ----

  /** The step looks for the marker, is answered, and the password opens the marker with this key. */
  predicate FindsMarker<Key(==)>(c: Cipher<Key>, password: string, objects: Objects, step: Step, key: Key) {
    && step.StatMarker? && step.fate == Answered && MARKER_NAME in objects
    && VerifyCompatible(c, objects[MARKER_NAME], password) == Some(key)
  }

  /** The step writes a marker that can be made, with this key, where there was none, and is answered. */
  predicate WritesMarker<Key(==)>(c: Cipher<Key>, password: string, objects: Objects, step: Step, key: Key) {
    && step.Claim? && step.fate == Answered && MARKER_NAME !in objects
    && key == c.derive(password, step.salt) && c.usable(key) && c.encrypt(key, step.plaintext).Some?
  }

  /** A marker opens if and only if salt and ciphertext decode and the key derived from them decrypts the ciphertext. */
  lemma CompatibleIff<Key>(c: Cipher<Key>, marker: Metadata, password: string, key: Key)
    ensures VerifyCompatible(c, marker, password) == Some(key) <==>
      && MARKER_SALT in marker && MARKER_CIPHERTEXT in marker
      && c.decode(marker[MARKER_SALT]).Some? && c.decode(marker[MARKER_CIPHERTEXT]).Some?
      && key == c.derive(password, c.decode(marker[MARKER_SALT]).value)
      && c.usable(key) && c.decrypt(key, c.decode(marker[MARKER_CIPHERTEXT]).value).Some?
  {
  }

  /** The one step that gives client i the bucket: it finds a marker, or it writes the marker. */
  lemma StepOpens<Key>(c: Cipher<Key>, passwords: seq<string>, w: World<Key>, step: Step, i: nat, key: Key)
    requires Possible(w, step) && |passwords| == |w.clients| && i < |passwords|
    ensures var (client, client') := (w.clients[i], Apply(c, passwords, w, step).clients[i]);
      && (client' == Open(key, false) <==>
            client == Open(key, false) || (step.client == i && FindsMarker(c, passwords[i], w.objects, step, key)))
      && (client' == Open(key, true) <==>
            client == Open(key, true) || (step.client == i && WritesMarker(c, passwords[i], w.objects, step, key)))
  {
  }

  /** At step k client i finds, or writes, the marker. */
  ghost predicate OpenedAt<Key>(c: Cipher<Key>, passwords: seq<string>, ws: seq<World<Key>>, steps: seq<Step>,
                                i: nat, key: Key, created: bool, k: int)
    requires i < |passwords|
  {
    && 0 <= k < |steps| && k < |ws| && steps[k].client == i
    && if created then WritesMarker(c, passwords[i], ws[k].objects, steps[k], key)
       else FindsMarker(c, passwords[i], ws[k].objects, steps[k], key)
  }

  /**
   In any race, with any requests lost: a client has the bucket with a key if and
   only if it has found a marker that its password opens with the key, or has
   itself written the marker for the key.
   */
  lemma {:induction false} OpenIff<Key(!new)>(c: Cipher<Key>, passwords: seq<string>, objects: Objects,
                                              ws: seq<World<Key>>, steps: seq<Step>, n: nat, i: nat, key: Key, created: bool)
    requires IsRun(c, passwords, objects, ws, steps) && n < |ws| && i < |passwords|
    ensures |ws[n].clients| == |passwords|
    ensures ws[n].clients[i] == Open(key, created) <==>
      exists k :: k < n && OpenedAt(c, passwords, ws, steps, i, key, created, k)
  {
    if n > 0 {
      OpenIff(c, passwords, objects, ws, steps, n - 1, i, key, created);
      assert StepAt(c, passwords, ws, steps, n - 1);
      StepOpens(c, passwords, ws[n - 1], steps[n - 1], i, key);
      assert ws[n].clients[i] == Open(key, created) <==>
        ws[n - 1].clients[i] == Open(key, created) || OpenedAt(c, passwords, ws, steps, i, key, created, n - 1);
    }
  }

  /** A client alone, on a bucket without a marker, whose requests are answered and whose marker can be made, gets it. */
  lemma LoneClientOpens<Key(!new)>(c: Cipher<Key>, password: string, objects: Objects, salt: Bytes, plaintext: Bytes)
    returns (ws: seq<World<Key>>, steps: seq<Step>)
    requires MARKER_NAME !in objects && NewMarker(c, password, salt, plaintext).Some?
    ensures IsRun(c, [password], objects, ws, steps)
    ensures ws[|steps|] == World(objects[MARKER_NAME := NewMarker(c, password, salt, plaintext).value],
                                 [Open(c.derive(password, salt), true)])
  {
    var w0: World<Key> := World(objects, [Starting]);
    steps := [StatMarker(0, Answered), Claim(0, salt, plaintext, Answered)];
    var w1 := Apply(c, [password], w0, steps[0]);
    assert w1 == World(objects, [NoMarkerSeen]);
    var w2 := Apply(c, [password], w1, steps[1]);
    ws := [w0, w1, w2];
    forall i | 0 <= i < |steps|
      ensures StepAt(c, [password], ws, steps, i)
    {
      assert i == 0 || i == 1;
    }
  }
}
