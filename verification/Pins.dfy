/** Descriptor pins: what a handle adopts from a server it does not trust. */
module Pins {
  import opened Types
  import opened Database
  import opened Invariant
  import Audit
  import Recovery

  type Hash = int

  /** A verified descriptor: its generation, the hash of the one before it, and the keys it publishes. */
  datatype Descriptor = Descriptor(generation: nat, prev: Hash, keys: Bytes)
  datatype Pin = Pin(generation: nat, hash: Hash)

  type Hashing = Descriptor -> Hash

  function PinOf(hash: Hashing, d: Descriptor): Pin {
    Pin(d.generation, hash(d))
  }

  /** `ds` leads from `from` by consecutive generations, each carrying the hash of the one before. */
  ghost predicate Chained(hash: Hashing, from: Pin, ds: seq<Descriptor>)
    decreases |ds|
  {
    ds == [] || (ds[0].generation == from.generation + 1 && ds[0].prev == from.hash
                 && Chained(hash, PinOf(hash, ds[0]), ds[1..]))
  }

  function EndOf(hash: Hashing, from: Pin, ds: seq<Descriptor>): Pin {
    if ds == [] then from else PinOf(hash, ds[|ds| - 1])
  }

  ghost predicate Leads(hash: Hashing, from: Pin, ds: seq<Descriptor>, to: Pin) {
    Chained(hash, from, ds) && EndOf(hash, from, ds) == to
  }

  ghost predicate Reaches(hash: Hashing, from: Pin, to: Pin) {
    exists ds :: Leads(hash, from, ds, to)
  }

  lemma {:induction false} ChainedSnoc(hash: Hashing, from: Pin, ds: seq<Descriptor>, d: Descriptor)
    ensures Chained(hash, from, ds + [d]) <==>
              && Chained(hash, from, ds)
              && d.generation == EndOf(hash, from, ds).generation + 1 && d.prev == EndOf(hash, from, ds).hash
    decreases |ds|
  {
    if ds == [] {
      assert ds + [d] == [d];
    } else {
      assert (ds + [d])[1..] == ds[1..] + [d];
      ChainedSnoc(hash, PinOf(hash, ds[0]), ds[1..], d);
    }
  }

  lemma {:induction false} ChainRises(hash: Hashing, from: Pin, ds: seq<Descriptor>)
    requires Chained(hash, from, ds)
    ensures EndOf(hash, from, ds).generation == from.generation + |ds|
    decreases |ds|
  {
    if ds != [] {
      ChainRises(hash, PinOf(hash, ds[0]), ds[1..]);
    }
  }

  lemma {:induction false} LeadsJoin(hash: Hashing, a: Pin, ds: seq<Descriptor>, b: Pin, es: seq<Descriptor>, c: Pin)
    requires Leads(hash, a, ds, b) && Leads(hash, b, es, c)
    ensures Leads(hash, a, ds + es, c)
    decreases |es|
  {
    if es == [] {
      assert ds + es == ds;
    } else {
      var front, last := es[..|es| - 1], es[|es| - 1];
      assert es == front + [last];
      ChainedSnoc(hash, b, front, last);
      LeadsJoin(hash, a, ds, b, front, EndOf(hash, b, front));
      ChainedSnoc(hash, a, ds + front, last);
      assert ds + es == ds + front + [last];
    }
  }

  /** With no collisions, two chains to one pin are the same chain: the pin vouches for all of it. */
  lemma {:induction false} ChainIsUnique(hash: Hashing, from: Pin, ds: seq<Descriptor>, es: seq<Descriptor>, to: Pin)
    requires forall a, b :: hash(a) == hash(b) ==> a == b
    requires Leads(hash, from, ds, to) && Leads(hash, from, es, to)
    ensures ds == es
    decreases |ds|
  {
    ChainRises(hash, from, ds);
    ChainRises(hash, from, es);
    if ds != [] {
      var d, e := ds[|ds| - 1], es[|es| - 1];
      assert ds == ds[..|ds| - 1] + [d] && es == es[..|es| - 1] + [e];
      ChainedSnoc(hash, from, ds[..|ds| - 1], d);
      ChainedSnoc(hash, from, es[..|es| - 1], e);
      ChainIsUnique(hash, from, ds[..|ds| - 1], es[..|es| - 1], EndOf(hash, from, ds[..|ds| - 1]));
    }
  }

  // ------------------------------------------------------------ what is accepted

  /** The served descriptors up to the wanted generation, in the order served. */
  function Below(served: seq<Descriptor>, generation: nat): seq<Descriptor> {
    if served == [] || served[0].generation > generation then [] else [served[0]] + Below(served[1..], generation)
  }

  /** When the pin admits `d`, given what the server lists after the pin (nothing if that request fails). */
  ghost predicate Admits(hash: Hashing, pin: Pin, d: Descriptor, served: Option<seq<Descriptor>>) {
    if d.generation <= pin.generation then PinOf(hash, d) == pin
    else served.Some? && Leads(hash, pin, Below(served.value, d.generation), PinOf(hash, d))
  }

  /** Whatever is admitted is reached from the pin, so it is not older, and at the pin's own generation it
  is the pinned one. */
  lemma AdmittedIsReached(hash: Hashing, pin: Pin, d: Descriptor, served: Option<seq<Descriptor>>)
    requires Admits(hash, pin, d, served)
    ensures Reaches(hash, pin, PinOf(hash, d)) && pin.generation <= d.generation
  {
    if d.generation <= pin.generation {
      assert Leads(hash, pin, [], PinOf(hash, d));
    }
  }

  datatype PinError = GenerationRollback(known: nat,
      got: nat) | BindingMismatch | Unavailable | VersionRollback(seen: nat, now: nat)

  lemma {:induction false} BelowIs(served: seq<Descriptor>, n: nat, generation: nat)
    requires n <= |served| && forall i :: 0 <= i < n ==> served[i].generation <= generation
    ensures Below(served, generation) == served[..n] + Below(served[n..], generation)
    decreases n
  {
    if n == 0 {
      assert served[0..] == served;
    } else {
      BelowIs(served[1..], n - 1, generation);
      assert served[1..][n - 1..] == served[n..];
      assert [served[0]] + served[1..][..n - 1] == served[..n];
    }
  }

  /** Chains that share a beginning. */
  lemma {:induction false} BrokenStaysBroken(hash: Hashing, from: Pin, ds: seq<Descriptor>, es: seq<Descriptor>)
    requires Chained(hash, from, ds + es)
    ensures Chained(hash, from, ds)
    decreases |es|
  {
    if es != [] {
      var front, last := es[..|es| - 1], es[|es| - 1];
      assert ds + es == ds + front + [last];
      ChainedSnoc(hash, from, ds + front, last);
      BrokenStaysBroken(hash, from, ds, front);
    } else {
      assert ds + es == ds;
    }
  }

  lemma LeadsOn(hash: Hashing, pin: Pin, list: seq<Descriptor>, n: nat, at: Pin)
    requires n < |list| && Leads(hash, pin, list[..n], at)
    ensures Chained(hash, pin, list[..n + 1]) <==> list[n].generation == at.generation + 1 && list[n].prev == at.hash
    ensures Chained(hash, pin, list[..n + 1]) ==> Leads(hash, pin, list[..n + 1], PinOf(hash, list[n]))
  {
    hide Chained;
    assert list[..n + 1] == list[..n] + [list[n]];
    ChainedSnoc(hash, pin, list[..n], list[n]);
  }

  /** A break in what was served up to `generation` is a break in all of it. */
  lemma BreakShows(hash: Hashing, pin: Pin, list: seq<Descriptor>, n: nat, generation: nat)
    requires n <= |list| && forall i :: 0 <= i < n ==> list[i].generation <= generation
    ensures Chained(hash, pin, Below(list, generation)) ==> Chained(hash, pin, list[..n])
  {
    hide Chained, Below;
    BelowIs(list, n, generation);
    if Chained(hash, pin, Below(list, generation)) {
      BrokenStaysBroken(hash, pin, list[..n], Below(list[n..], generation));
    }
  }

  lemma AllBelow(list: seq<Descriptor>, n: nat, generation: nat)
    requires n <= |list| && forall i :: 0 <= i < n ==> list[i].generation <= generation
    requires n < |list| ==> list[n].generation > generation
    ensures Below(list, generation) == list[..n]
  {
    BelowIs(list, n, generation);
  }

  /** The check, as a walk along what was served. */
  method CheckDescriptorPin(hash: Hashing, pin: Pin, d: Descriptor, served: Option<seq<Descriptor>>)
    returns (r: Result<(), PinError>)
    ensures r.Ok? <==> Admits(hash, pin, d, served)
    ensures r.Err? ==>
              r.error == if d.generation <= pin.generation then GenerationRollback(pin.generation, d.generation)
                         else if served.None? then Unavailable else BindingMismatch
  {
    hide Chained, Below;
    if d.generation < pin.generation {
      return Err(GenerationRollback(pin.generation, d.generation));
    }
    if d.generation == pin.generation {
      if hash(d) == pin.hash {
        return Ok(());
      }
      return Err(GenerationRollback(pin.generation, d.generation));
    }
    if served.None? {
      return Err(Unavailable);
    }
    var list := served.value;
    var at := pin;
    var n: nat := 0;
    NowhereLeads(hash, pin);
    assert list[..0] == [];
    while n < |list| && list[n].generation <= d.generation
      invariant n <= |list|
      invariant forall i :: 0 <= i < n ==> list[i].generation <= d.generation
      invariant Leads(hash, pin, list[..n], at)
    {
      var next := list[n];
      LeadsOn(hash, pin, list, n, at);
      if next.generation != at.generation + 1 || next.prev != at.hash {
        BreakShows(hash, pin, list, n + 1, d.generation);
        return Err(BindingMismatch);
      }
      at := PinOf(hash, next);
      n := n + 1;
    }
    AllBelow(list, n, d.generation);
    if at.generation != d.generation || at.hash != hash(d) {
      return Err(BindingMismatch);
    }
    return Ok(());
  }

  // ------------------------------------------------------------ the handle

  datatype Pins = Pins(descriptor: Option<Pin>, secrets: map<NameHmac, nat>, configs: map<NameHmac, nat>)
  {
    function Versions(kind: RecordKind): map<NameHmac, nat> {
      match kind case Secret => secrets case Config => configs
    }

    function With(kind: RecordKind, m: map<NameHmac, nat>): Pins {
      match kind case Secret => this.(secrets := m) case Config => this.(configs := m)
    }
  }

  function Other(kind: RecordKind): RecordKind {
    match kind case Secret => Config case Config => Secret
  }

  /** One thing done with a handle, with whatever the server answered. */
  datatype Use =
    | Refresh(answer: Option<Descriptor>, served: Option<seq<Descriptor>>)
    | SetPins(pins: Pins, served: Option<seq<Descriptor>>)
    | SawVersion(kind: RecordKind, name: NameHmac, got: nat)

  datatype Holding = Holding(view: Descriptor, pins: Pins)

  ghost predicate Agrees(hash: Hashing, h: Holding) {
    h.pins.descriptor == Some(PinOf(hash, h.view))
  }

  ghost function Used(hash: Hashing, h: Holding, u: Use): Holding {
    match u
    case Refresh(answer, served) =>
      if answer.Some? && (h.pins.descriptor.Some? ==> Admits(hash, h.pins.descriptor.value, answer.value, served))
      then Holding(answer.value, h.pins.(descriptor := Some(PinOf(hash, answer.value)))) else h
    case SetPins(pins, served) =>
      if pins.descriptor.Some? ==> Admits(hash, pins.descriptor.value, h.view, served)
      then h.(pins := pins.(descriptor := h.pins.descriptor)) else h
    case SawVersion(kind, name, got) =>
      var seen := h.pins.Versions(kind);
      if name in seen && got < seen[name] then h else h.(pins := h.pins.With(kind, seen[name := got]))
  }

  class Handle {
    const hash: Hashing
    var view: Descriptor
    var pins: Pins

    ghost function State(): Holding
      reads this
    {
      Holding(view, pins)
    }

    constructor (hash: Hashing, view: Descriptor)
      ensures this.hash == hash && State() == Holding(view, Pins(Some(PinOf(hash, view)), map[], map[]))
      ensures Agrees(hash, State())
    {
      this.hash := hash;
      this.view := view;
      this.pins := Pins(Some(PinOf(hash, view)), map[], map[]);
    }

    /** Adopt the descriptor the server now shows, if the pin admits it. */
    method Refresh(answer: Option<Descriptor>, served: Option<seq<Descriptor>>) returns (r: Result<(), PinError>)
      requires Agrees(hash, State())
      modifies this
      ensures State() == Used(hash, old(State()), Use.Refresh(answer, served)) && Agrees(hash, State())
      ensures r.Ok? <==> answer.Some? && Admits(hash, old(PinOf(hash, view)), answer.value, served)
      ensures r.Err? ==> State() == old(State())
      ensures r.Ok? ==> view == answer.value && Reaches(hash, old(PinOf(hash, view)), PinOf(hash, view))
      ensures pins.secrets == old(pins.secrets) && pins.configs == old(pins.configs)
    {
      hide Admits, Reaches;
      if answer.None? {
        return Err(Unavailable);
      }
      if pins.descriptor.Some? {
        var ok := CheckDescriptorPin(hash, pins.descriptor.value, answer.value, served);
        if ok.Err? {
          return ok;
        }
      }
      AdmittedIsReached(hash, PinOf(hash, view), answer.value, served);
      view := answer.value;
      pins := pins.(descriptor := Some(PinOf(hash, view)));
      return Ok(());
    }

    /** Take over record versions a caller kept, if the descriptor it kept leads to the one in hand. */
    method SetPins(kept: Pins, served: Option<seq<Descriptor>>) returns (r: Result<(), PinError>)
      requires Agrees(hash, State())
      modifies this
      ensures State() == Used(hash, old(State()), Use.SetPins(kept, served)) && Agrees(hash, State())
      ensures view == old(view) && pins.descriptor == old(pins.descriptor)
      ensures r.Ok? <==> (kept.descriptor.Some? ==> Admits(hash, kept.descriptor.value, view, served))
      ensures r.Ok? ==> pins.secrets == kept.secrets && pins.configs == kept.configs
      ensures r.Ok? && kept.descriptor.Some? ==> Reaches(hash, kept.descriptor.value, PinOf(hash, view))
      ensures r.Err? ==> State() == old(State())
    {
      hide Admits, Reaches;
      if kept.descriptor.Some? {
        var ok := CheckDescriptorPin(hash, kept.descriptor.value, view, served);
        if ok.Err? {
          return ok;
        }
        AdmittedIsReached(hash, kept.descriptor.value, view, served);
      }
      pins := kept.(descriptor := pins.descriptor);
      return Ok(());
    }

    /** Refuse a version older than one seen; remember it otherwise. */
    method CheckVersion(kind: RecordKind, name: NameHmac, got: nat) returns (r: Result<(), PinError>)
      requires Agrees(hash, State())
      modifies this
      ensures State() == Used(hash, old(State()), SawVersion(kind, name, got)) && Agrees(hash, State())
      ensures r.Err? <==> name in old(pins.Versions(kind)) && got < old(pins.Versions(kind))[name]
      ensures r.Err? ==> r.error == VersionRollback(old(pins.Versions(kind))[name], got) && State() == old(State())
      ensures r.Ok? ==> pins.Versions(kind) == old(pins.Versions(kind))[name := got]
      ensures view == old(view) && pins.Versions(Other(kind)) == old(pins.Versions(Other(kind)))
    {
      var seen := pins.Versions(kind);
      if name in seen && got < seen[name] {
        return Err(VersionRollback(seen[name], got));
      }
      pins := pins.With(kind, seen[name := got]);
      return Ok(());
    }
  }

  // ------------------------------------------------------------ every run, against any server

  ghost function UsedAll(hash: Hashing, h: Holding, us: seq<Use>): Holding
    decreases |us|
  {
    if us == [] then h else Used(hash, UsedAll(hash, h, us[..|us| - 1]), us[|us| - 1])
  }

  lemma UseReaches(hash: Hashing, h: Holding, u: Use)
    requires Agrees(hash, h)
    ensures var h' := Used(hash, h, u); Agrees(hash, h') && Reaches(hash, PinOf(hash, h.view), PinOf(hash, h'.view))
  {
    hide Admits;
    assert Leads(hash, PinOf(hash, h.view), [], PinOf(hash, h.view));
    if u.Refresh? && u.answer.Some? && Admits(hash, PinOf(hash, h.view), u.answer.value, u.served) {
      AdmittedIsReached(hash, PinOf(hash, h.view), u.answer.value, u.served);
    }
  }

  /** Whatever the server answers, over every run of refreshing, taking over pins and reading versions: the
  descriptor in hand is reached from the first one by consecutive generations, each carrying the hash of
  the one before, so its generation never falls and never changes hash. */
  lemma {:induction false} EveryRunIsReached(hash: Hashing, h: Holding, us: seq<Use>)
    requires Agrees(hash, h)
    ensures var h' := UsedAll(hash, h, us);
            && Agrees(hash, h') && Reaches(hash, PinOf(hash, h.view), PinOf(hash, h'.view))
            && h.view.generation <= h'.view.generation
            && (h.view.generation == h'.view.generation ==> hash(h.view) == hash(h'.view))
    decreases |us|
  {
    hide Used, Leads;
    if us == [] {
      NowhereLeads(hash, PinOf(hash, h.view));
    } else {
      var mid := UsedAll(hash, h, us[..|us| - 1]);
      EveryRunIsReached(hash, h, us[..|us| - 1]);
      UseReaches(hash, mid, us[|us| - 1]);
      var h' := UsedAll(hash, h, us);
      var ds :| Leads(hash, PinOf(hash, h.view), ds, PinOf(hash, mid.view));
      var es :| Leads(hash, PinOf(hash, mid.view), es, PinOf(hash, h'.view));
      LeadsJoin(hash, PinOf(hash, h.view), ds, PinOf(hash, mid.view), es, PinOf(hash, h'.view));
      LeadsRises(hash, PinOf(hash, h.view), ds + es, PinOf(hash, h'.view));
    }
  }

  lemma NowhereLeads(hash: Hashing, p: Pin)
    ensures Leads(hash, p, [], p)
  {
  }

  lemma LeadsRises(hash: Hashing, a: Pin, ds: seq<Descriptor>, b: Pin)
    requires Leads(hash, a, ds, b)
    ensures a.generation <= b.generation && (a.generation == b.generation ==> a == b)
  {
    ChainRises(hash, a, ds);
  }

  /** Record versions never fall while the caller's own pins are not put in their place. */
  lemma {:induction false} VersionsNeverFall(hash: Hashing, h: Holding, us: seq<Use>, kind: RecordKind, name: NameHmac)
    requires forall i :: 0 <= i < |us| ==> !us[i].SetPins?
    requires name in h.pins.Versions(kind)
    ensures var seen := UsedAll(hash, h, us).pins.Versions(kind);
            name in seen && h.pins.Versions(kind)[name] <= seen[name]
    decreases |us|
  {
    if us != [] {
      VersionsNeverFall(hash, h, us[..|us| - 1], kind, name);
    }
  }

  // ------------------------------------------------------------ an honest server

  /** Every stored descriptor opens to one of its own generation that carries the hash of the one before:
  what an owner's own rotations publish. */
  ghost predicate WellPublished(hash: Hashing, open: SignedDescriptor -> Descriptor, v: Vault) {
    && (forall g :: g in v.descriptors ==> open(v.descriptors[g]).generation == g)
    && (forall g: nat :: g <= v.generation ==> CarriesHash(hash, open, v, g))
  }

  ghost predicate CarriesHash(hash: Hashing, open: SignedDescriptor -> Descriptor, v: Vault, g: nat) {
    g in v.descriptors && g - 1 in v.descriptors ==>
      open(v.descriptors[g]).prev == hash(open(v.descriptors[g - 1]))
  }

  /** What the store lists after a generation. */
  function Listed(open: SignedDescriptor -> Descriptor, v: Vault, after: nat): seq<Descriptor>
    requires DescriptorsOk(v) && after <= v.generation
  {
    seq(v.generation - after, i requires 0 <= i < v.generation - after => open(v.descriptors[after + 1 + i]))
  }

  lemma {:induction false} ListedIsChained(hash: Hashing, open: SignedDescriptor -> Descriptor, v: Vault, after: nat,
                        n: nat)
    requires VaultOk(v) && WellPublished(hash, open, v) && 1 <= after <= after + n <= v.generation
    ensures Leads(hash, PinOf(hash, open(v.descriptors[after])), Listed(open, v, after)[..n],
                  PinOf(hash, open(v.descriptors[after + n])))
    decreases n
  {
    hide ChainOk, RecordsOk, Chained;
    if n == 0 {
      assert Listed(open, v, after)[..0] == [];
      NowhereLeads(hash, PinOf(hash, open(v.descriptors[after])));
    } else {
      var list := Listed(open, v, after);
      ListedIsChained(hash, open, v, after, n - 1);
      assert CarriesHash(hash, open, v, after + n);
      assert list[..n] == list[..n - 1] + [list[n - 1]];
      ChainedSnoc(hash, PinOf(hash, open(v.descriptors[after])), list[..n - 1], list[n - 1]);
    }
  }

  lemma BelowListed(open: SignedDescriptor -> Descriptor, hash: Hashing, v: Vault, after: nat, n: nat)
    requires VaultOk(v) && WellPublished(hash, open, v) && after + n <= v.generation
    ensures Below(Listed(open, v, after), after + n) == Listed(open, v, after)[..n]
  {
    hide ChainOk, RecordsOk;
    var list := Listed(open, v, after);
    BelowIs(list, n, after + n);
    assert list[n..] == [] || list[n..][0] == list[n];
  }

  /** A handle pinned at any earlier moment, shown the current descriptor at a later one and served the
  list at a later one still, accepts it: rotations that overtake the request do no harm. */
  lemma HonestIsAdmitted(hash: Hashing, open: SignedDescriptor -> Descriptor, db: Db, before: seq<Recovery.Op>,
                         after: seq<Recovery.Op>, pk: nat)
    requires Inv(db) && pk in db.vaults && Recovery.Spares(before, pk) && Recovery.Spares(after, pk)
    requires var late := Recovery.Run(Recovery.Run(db, before), after);
             pk in late.vaults ==> WellPublished(hash, open, late.vaults[pk])
    ensures var shown := Recovery.Run(db, before);
            var late := Recovery.Run(shown, after);
            && pk in shown.vaults && pk in late.vaults
            && DescriptorsOk(db.vaults[pk]) && DescriptorsOk(shown.vaults[pk]) && DescriptorsOk(late.vaults[pk])
            && db.vaults[pk].generation <= late.vaults[pk].generation
            && Admits(hash, PinOf(hash, open(db.vaults[pk].descriptors[db.vaults[pk].generation])),
                      open(shown.vaults[pk].descriptors[shown.vaults[pk].generation]),
                      Some(Listed(open, late.vaults[pk], db.vaults[pk].generation)))
  {
    hide Inv, Recovery.Run, ChainOk, RecordsOk, Admits, WellPublished;
    var shown := Recovery.Run(db, before);
    var late := Recovery.Run(shown, after);
    Audit.DescriptorsStay(db, before, pk);
    Audit.DescriptorsStay(shown, after, pk);
    Audit.ChainsOnlyExtend(db, before, pk);
    Audit.ChainsOnlyExtend(shown, after, pk);
    VaultsAreOk(db, pk);
    VaultsAreOk(shown, pk);
    VaultsAreOk(late, pk);
    var v0, v1, v2 := db.vaults[pk], shown.vaults[pk], late.vaults[pk];
    assert v0.generation in v1.descriptors && v1.generation in v2.descriptors && v0.generation in v2.descriptors;
    PublishedIsAdmitted(hash, open, v0, v1, v2);
  }

  lemma VaultsAreOk(db: Db, pk: nat)
    requires Inv(db) && pk in db.vaults
    ensures VaultOk(db.vaults[pk])
  {
  }

  lemma PublishedIsAdmitted(hash: Hashing, open: SignedDescriptor -> Descriptor, v0: Vault, v1: Vault, v2: Vault)
    requires VaultOk(v0) && VaultOk(v1) && VaultOk(v2) && WellPublished(hash, open, v2)
    requires Audit.Published(v0, v1) && Audit.Published(v1, v2)
    ensures v0.generation <= v1.generation <= v2.generation
    ensures Admits(hash, PinOf(hash, open(v0.descriptors[v0.generation])), open(v1.descriptors[v1.generation]),
                   Some(Listed(open, v2, v0.generation)))
  {
    hide ChainOk, RecordsOk, Leads, Listed, Below;
    var g, h := v0.generation, v1.generation;
    assert g in v1.descriptors && h in v2.descriptors && g in v2.descriptors;
    assert v2.descriptors[g] == v0.descriptors[g] && v2.descriptors[h] == v1.descriptors[h];
    assert open(v2.descriptors[g]).generation == g && open(v2.descriptors[h]).generation == h;
    hide DescriptorsOk, Audit.Published;
    if g < h {
      ListedIsChained(hash, open, v2, g, h - g);
      BelowListed(open, hash, v2, g, h - g);
    }
  }
}
