/** CAP messages as the lifecycle code sees them: an identity, the raw reference
    list of the payload, and the few fields that reconciliation reads.  Texts are
    already trimmed and instants are integers on one time line. */
module CapMessages {
  import opened Optional

  datatype Identity = Identity(sender: string, identifier: string)

  /** One entry of the payload's `references` list: no sender when it is missing or empty,
      an empty identifier when that is missing, and `sent` only when it parses.  A sender
      of white space is present but empty. */
  datatype RawReference = RawReference(sender: Option<string>, identifier: string, sent: Option<int>)

  datatype Kind = Alert | Update | Cancel

  datatype Status = Active | Updated | Expired | Cancelled

  datatype Message = Message(
    id: Identity,
    references: Option<seq<RawReference>>,
    legacyIdentifiers: seq<string>,
    sentAt: int,
    kind: Kind,
    declared: Status,
    expiresAt: Option<int>,
    checksum: int)

  // ------------------------------------------------------------ the total order

  predicate StringLeq(a: string, b: string) {
    a == [] || (b != [] && (a[0] < b[0] || (a[0] == b[0] && StringLeq(a[1..], b[1..]))))
  }

  predicate IdentityLeq(a: Identity, b: Identity) {
    if a.sender == b.sender then StringLeq(a.identifier, b.identifier) else StringLeq(a.sender, b.sender)
  }

  lemma {:induction false} StringOrderIsTotal(a: string, b: string)
    ensures StringLeq(a, b) || StringLeq(b, a)
    ensures StringLeq(a, b) && StringLeq(b, a) ==> a == b
  {
    if a != [] && b != [] && a[0] == b[0] {
      StringOrderIsTotal(a[1..], b[1..]);
      assert a == [a[0]] + a[1..] && b == [b[0]] + b[1..];
    }
  }

  lemma {:induction false} StringOrderIsTransitive(a: string, b: string, c: string)
    requires StringLeq(a, b) && StringLeq(b, c)
    ensures StringLeq(a, c)
  {
    if a != [] && a[0] == b[0] == c[0] {
      StringOrderIsTransitive(a[1..], b[1..], c[1..]);
    }
  }

  lemma IdentityOrderIsTotal(a: Identity, b: Identity)
    ensures IdentityLeq(a, b) || IdentityLeq(b, a)
    ensures IdentityLeq(a, b) && IdentityLeq(b, a) ==> a == b
  {
    StringOrderIsTotal(a.sender, b.sender);
    StringOrderIsTotal(a.identifier, b.identifier);
  }

  lemma IdentityOrderIsTransitive(a: Identity, b: Identity, c: Identity)
    requires IdentityLeq(a, b) && IdentityLeq(b, c)
    ensures IdentityLeq(a, c)
  {
    if a.sender == b.sender == c.sender {
      StringOrderIsTransitive(a.identifier, b.identifier, c.identifier);
    } else if a.sender != b.sender && b.sender != c.sender {
      StringOrderIsTransitive(a.sender, b.sender, c.sender);
      StringOrderIsTotal(a.sender, b.sender);
    }
  }

  // ------------------------------------------------------------- chronological

  /** The sort key of reconciliation, `(sent_at, identity)`. */
  predicate Before(a: Message, b: Message) {
    a.sentAt < b.sentAt || (a.sentAt == b.sentAt && a.id != b.id && IdentityLeq(a.id, b.id))
  }

  lemma BeforeIsStrictOrder(a: Message, b: Message, c: Message)
    ensures !(Before(a, b) && Before(b, a))
    ensures a.id != b.id ==> Before(a, b) || Before(b, a)
    ensures Before(a, b) && Before(b, c) ==> Before(a, c)
  {
    IdentityOrderIsTotal(a.id, b.id);
    IdentityOrderIsTotal(b.id, c.id);
    if IdentityLeq(a.id, b.id) && IdentityLeq(b.id, c.id) {
      IdentityOrderIsTransitive(a.id, b.id, c.id);
    }
  }

  // ----------------------------------------------- the same order, read off the fields

  /** After `k` equal characters `a` ends first, or has the smaller character. */
  predicate DivergesAt(a: string, b: string, k: nat) {
    k <= |a| && k < |b| && a[..k] == b[..k] && (k == |a| || a[k] < b[k])
  }

  /** Text `a` comes before text `b` in the dictionary. */
  ghost predicate Precedes(a: string, b: string) {
    exists k: nat :: DivergesAt(a, b, k)
  }

  ghost predicate IdentityPrecedes(x: Identity, y: Identity) {
    Precedes(x.sender, y.sender) || (x.sender == y.sender && Precedes(x.identifier, y.identifier))
  }

  /** Sent earlier, or at the same time under the smaller identity. */
  ghost predicate SentBefore(a: Message, b: Message) {
    a.sentAt < b.sentAt || (a.sentAt == b.sentAt && IdentityPrecedes(a.id, b.id))
  }

  lemma {:induction false} StringOrderIsLexicographic(a: string, b: string)
    ensures StringLeq(a, b) <==> a == b || Precedes(a, b)
  {
    if a == [] {
      if b != [] { assert DivergesAt(a, b, 0); }
    } else if b == [] {
      assert forall k: nat :: !DivergesAt(a, b, k);
    } else if a[0] != b[0] {
      if a[0] < b[0] { assert DivergesAt(a, b, 0); }
      forall k: nat | k > 0 ensures !DivergesAt(a, b, k) {
        if k <= |a| && k <= |b| { assert a[..k][0] != b[..k][0]; }
      }
      assert Precedes(a, b) ==> DivergesAt(a, b, 0);
    } else {
      StringOrderIsLexicographic(a[1..], b[1..]);
      assert a == [a[0]] + a[1..] && b == [b[0]] + b[1..];
      if k: nat :| DivergesAt(a[1..], b[1..], k) { LongerDivergence(a, b, k); }
      if k: nat :| DivergesAt(a, b, k) { ShorterDivergence(a, b, k); }
    }
  }

  lemma LongerDivergence(a: string, b: string, k: nat)
    requires a != [] && b != [] && a[0] == b[0] && DivergesAt(a[1..], b[1..], k)
    ensures DivergesAt(a, b, k + 1)
  {
    assert a[..k + 1] == [a[0]] + a[1..][..k] && b[..k + 1] == [b[0]] + b[1..][..k];
  }

  lemma ShorterDivergence(a: string, b: string, k: nat)
    requires a != [] && b != [] && a[0] == b[0] && DivergesAt(a, b, k)
    ensures k > 0 && DivergesAt(a[1..], b[1..], k - 1)
  {
    assert a[1..][..k - 1] == a[..k][1..] && b[1..][..k - 1] == b[..k][1..];
  }

  lemma PrecedesDiffers(a: string, b: string)
    requires Precedes(a, b)
    ensures a != b
  {
    var k: nat :| DivergesAt(a, b, k);
  }

  /** The sort key puts messages in the order of their sent times, and at equal times in the
      order of their identities, sender first. */
  lemma BeforeIffSentBefore(a: Message, b: Message)
    ensures Before(a, b) <==> SentBefore(a, b)
  {
    StringOrderIsLexicographic(a.id.sender, b.id.sender);
    StringOrderIsLexicographic(a.id.identifier, b.id.identifier);
    if Precedes(a.id.sender, b.id.sender) { PrecedesDiffers(a.id.sender, b.id.sender); }
    if Precedes(a.id.identifier, b.id.identifier) { PrecedesDiffers(a.id.identifier, b.id.identifier); }
  }

  ghost predicate Chronological(s: seq<Message>) {
    forall j, k | 0 <= j < k < |s| :: Before(s[j], s[k])
  }

  /** A set of messages has at most one chronological listing. */
  lemma {:induction false} ChronologicalListingIsUnique(s: seq<Message>, t: seq<Message>)
    requires Chronological(s) && Chronological(t)
    requires forall m :: m in s <==> m in t
    ensures s == t
  {
    assert s != [] ==> s[0] in t;
    assert t != [] ==> t[0] in s;
    if s != [] {
      if s[0] != t[0] {
        BeforeIsStrictOrder(s[0], t[0], t[0]);
        assert false;
      }
      forall m ensures m in s[1..] <==> m in t[1..] {
        TailMembers(s, m);
        TailMembers(t, m);
      }
      ChronologicalListingIsUnique(s[1..], t[1..]);
      assert s == [s[0]] + s[1..] && t == [t[0]] + t[1..];
    }
  }

  lemma TailMembers(s: seq<Message>, m: Message)
    requires s != [] && Chronological(s)
    ensures m in s[1..] <==> m in s && m != s[0]
  {}

  // --------------------------------------------------------- reading references

  /** The identity one reference names, or none when it names nobody. */
  function Referent(r: RawReference, currentSender: string): Option<Identity> {
    var sender := if r.sender.None? then currentSender else r.sender.value;
    if r.identifier == "" || sender == "" then None else Some(Identity(sender, r.identifier))
  }

  function Referents(rs: seq<RawReference>, currentSender: string): seq<Identity> {
    if rs == [] then []
    else match Referent(rs[0], currentSender)
      case None => Referents(rs[1..], currentSender)
      case Some(x) => [x] + Referents(rs[1..], currentSender)
  }

  function LegacyAll(identifiers: seq<string>, currentSender: string): seq<Identity> {
    if identifiers == [] then []
    else (if identifiers[0] == "" then [] else [Identity(currentSender, identifiers[0])])
         + LegacyAll(identifiers[1..], currentSender)
  }

  /** Every identity the message refers to.  The plain identifier list is read only
      when the payload has no reference list at all. */
  function References(m: Message): seq<Identity> {
    match m.references
    case Some(rs) => Referents(rs, m.id.sender)
    case None => LegacyAll(m.legacyIdentifiers, m.id.sender)
  }

  /** The sent times that a reference list reports for `x`. */
  ghost function HintsIn(rs: seq<RawReference>, currentSender: string, x: Identity): set<int> {
    set r | r in rs && Referent(r, currentSender) == Some(x) && r.sent.Some? :: r.sent.value
  }

  /** The sent times that `m` reports for `x`; only the reference list carries any. */
  ghost function Hints(m: Message, x: Identity): set<int> {
    match m.references
    case None => {}
    case Some(rs) => HintsIn(rs, m.id.sender, x)
  }

  lemma {:induction false} ReferentsMembers(rs: seq<RawReference>, sender: string, x: Identity)
    ensures x in Referents(rs, sender) <==> exists r :: r in rs && Referent(r, sender) == Some(x)
  {
    if rs != [] {
      ReferentsMembers(rs[1..], sender, x);
      assert rs == [rs[0]] + rs[1..];
      assert rs[0] in rs;
    }
  }

  /** The reference gives `x` as its target: its identifier, and its own sender or, when it
      has none, the sender of the message it stands in. */
  predicate Gives(r: RawReference, currentSender: string, x: Identity) {
    && r.identifier == x.identifier != "" && x.sender != ""
    && match r.sender case Some(sender) => sender == x.sender case None => currentSender == x.sender
  }

  /** The message refers to `x`: by its reference list if it has one, and otherwise by its
      plain list of identifiers, which are its own sender's. */
  ghost predicate RefersTo(m: Message, x: Identity) {
    match m.references
    case Some(rs) => exists r :: r in rs && Gives(r, m.id.sender, x)
    case None => x.identifier in m.legacyIdentifiers && x.identifier != "" && x.sender == m.id.sender
  }

  lemma GivesReferent(r: RawReference, currentSender: string, x: Identity)
    ensures Gives(r, currentSender, x) <==> Referent(r, currentSender) == Some(x)
  {}

  lemma {:induction false} LegacyMembers(identifiers: seq<string>, sender: string, x: Identity)
    ensures x in LegacyAll(identifiers, sender) <==>
            x.identifier in identifiers && x.identifier != "" && x.sender == sender
  {
    if identifiers != [] {
      LegacyMembers(identifiers[1..], sender, x);
      assert identifiers == [identifiers[0]] + identifiers[1..];
    }
  }

  /** The identities read from a message are those that it refers to. */
  lemma ReferencesIff(m: Message, x: Identity)
    ensures x in References(m) <==> RefersTo(m, x)
  {
    match m.references
    case Some(rs) =>
      ReferentsMembers(rs, m.id.sender, x);
      forall r ensures Gives(r, m.id.sender, x) <==> Referent(r, m.id.sender) == Some(x) {
        GivesReferent(r, m.id.sender, x);
      }
    case None => LegacyMembers(m.legacyIdentifiers, m.id.sender, x);
  }

  /** The times reported for `x` are those of the references that give it. */
  lemma HintsIff(m: Message, x: Identity, t: int)
    ensures t in Hints(m, x) <==>
            m.references.Some? && exists r :: r in m.references.value && r.sent == Some(t) && Gives(r, m.id.sender, x)
  {
    if m.references.Some? {
      forall r ensures Gives(r, m.id.sender, x) <==> Referent(r, m.id.sender) == Some(x) {
        GivesReferent(r, m.id.sender, x);
      }
    }
  }

  /** A hinted identity is a referenced one. */
  lemma HintedIsReferenced(m: Message, x: Identity, t: int)
    requires t in Hints(m, x)
    ensures x in References(m)
  {
    ReferentsMembers(m.references.value, m.id.sender, x);
  }

  /** The earliest time in a finite set, if there is one. */
  ghost predicate IsEarliest(times: set<int>, t: Option<int>) {
    match t
    case None => times == {}
    case Some(v) => v in times && forall u :: u in times ==> v <= u
  }

  /** The dictionary `_reference_sent_times` builds: the earliest hint per identity. */
  method ReferenceSentTimes(m: Message) returns (times: map<Identity, int>)
    ensures forall x :: IsEarliest(Hints(m, x), Lookup(times, x))
  {
    times := map[];
    if m.references.None? { return; }
    var rs := m.references.value;
    for i := 0 to |rs|
      invariant forall x :: IsEarliest(HintsIn(rs[..i], m.id.sender, x), Lookup(times, x))
    {
      HintsOfLongerList(rs, i, m.id.sender);
      var named := Referent(rs[i], m.id.sender);
      if named.Some? && rs[i].sent.Some? {
        var x := named.value;
        if x !in times || rs[i].sent.value < times[x] {
          times := times[x := rs[i].sent.value];
        }
      }
    }
    assert rs[..|rs|] == rs;
  }

  lemma HintsOfLongerList(rs: seq<RawReference>, i: nat, sender: string)
    requires i < |rs|
    ensures forall x :: HintsIn(rs[..i + 1], sender, x) ==
                        HintsIn(rs[..i], sender, x) +
                        (if Referent(rs[i], sender) == Some(x) && rs[i].sent.Some? then {rs[i].sent.value} else {})
  {}
}
