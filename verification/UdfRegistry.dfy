/** internal/workers/udf_registry.go: user-defined functions per customer. A Go
    slice is a buffer and a length; append writes into spare room when there is
    some, and Delete filters in place. The mutex makes each method one step. */
module UdfRegistry {
  import opened SqlAst

  datatype Spec = Spec(name: string, kind: string, body: string, createdAt: int)
  datatype Slice = Slice(buf: array<Spec>, len: nat)
  datatype Result = Registered | SlugRequired | NameAndBodyRequired | AlreadyRegistered

  /** Slug to its specs, in order of registration. */
  type State = map<string, seq<Spec>>

  const ZERO_TIME := 0
  const MACRO := "macro"

  function SpecsOf(st: State, slug: string): seq<Spec> {
    if slug in st then st[slug] else []
  }

  function Completed(spec: Spec, now: int): Spec {
    spec.(kind := if spec.kind == "" then MACRO else spec.kind,
          createdAt := if spec.createdAt == ZERO_TIME then now else spec.createdAt)
  }

  ghost predicate HasName(specs: seq<Spec>, name: string) {
    exists i :: 0 <= i < |specs| && specs[i].name == name
  }

  ghost function Without(specs: seq<Spec>, name: string): seq<Spec> {
    if |specs| == 0 then []
    else
      var rest := Without(specs[..|specs| - 1], name);
      if specs[|specs| - 1].name == name then rest else rest + [specs[|specs| - 1]]
  }

  ghost function Outcome(st: State, slug: string, spec: Spec): Result {
    if slug == "" then SlugRequired
    else if spec.name == "" || spec.body == "" then NameAndBodyRequired
    else if HasName(SpecsOf(st, slug), spec.name) then AlreadyRegistered
    else Registered
  }

  ghost function AfterRegister(st: State, slug: string, spec: Spec, now: int): State {
    if Outcome(st, slug, spec) == Registered then st[slug := SpecsOf(st, slug) + [Completed(spec, now)]] else st
  }

  ghost function AfterDelete(st: State, name: string): State {
    map slug | slug in st :: Without(st[slug], name)
  }

  ghost predicate NameKnown(st: State, name: string) {
    exists slug :: slug in st && HasName(st[slug], name)
  }

  // ---- the registry -----------------------------------------------------------------------

  class Registry {
    var entries: map<string, Slice>
    ghost var Repr: set<object>
    /** What the slices show. */
    ghost var Specs: State

    /** The one slug that may use a buffer. */
    ghost var owner: map<array<Spec>, string>

    ghost predicate Valid()
      reads this, Repr
    {
      this in Repr && Specs.Keys == entries.Keys && owner.Keys <= Repr
      && (forall s :: s in entries ==> Shows(s))
    }

    ghost predicate Shows(slug: string)
      requires slug in entries && slug in Specs
      reads this, Repr
    {
      var s := entries[slug];
      s.buf in Repr && s.buf in owner && owner[s.buf] == slug
      && s.len <= s.buf.Length && s.buf[..s.len] == Specs[slug]
    }

    constructor ()
      ensures Valid() && fresh(Repr) && Specs == map[]
    {
      entries := map[];
      Repr := {this};
      Specs := map[];
      owner := map[];
    }

    /** Whether a name is taken; the loop of Register. */
    method Taken(slug: string, name: string) returns (taken: bool)
      requires Valid()
      ensures taken == HasName(SpecsOf(Specs, slug), name)
    {
      if slug !in entries {
        return false;
      }
      var s := entries[slug];
      assert SpecsOf(Specs, slug) == s.buf[..s.len];
      for i := 0 to s.len
        invariant forall k :: 0 <= k < i ==> s.buf[k].name != name
      {
        if s.buf[i].name == name {
          assert s.buf[..s.len][i].name == name;
          return true;
        }
      }
      taken := false;
    }

    method Register(slug: string, spec: Spec, now: int) returns (r: Result)
      requires Valid()
      modifies Repr
      ensures Valid() && fresh(Repr - old(Repr))
      ensures r == Outcome(old(Specs), slug, spec) && Specs == AfterRegister(old(Specs), slug, spec, now)
    {
      if slug == "" {
        return SlugRequired;
      }
      if spec.name == "" || spec.body == "" {
        return NameAndBodyRequired;
      }
      var taken := Taken(slug, spec.name);
      if taken {
        return AlreadyRegistered;
      }
      Append(slug, Completed(spec, now));
      r := Registered;
    }

    /** append(entries[slug], spec): into spare room, else into a larger buffer. */
    method Append(slug: string, spec: Spec)
      requires Valid()
      modifies Repr
      ensures Valid() && fresh(Repr - old(Repr))
      ensures Specs == old(Specs)[slug := SpecsOf(old(Specs), slug) + [spec]]
    {
      if slug in entries && entries[slug].len < entries[slug].buf.Length {
        AppendInPlace(slug, spec);
        return;
      }
      var buf: array<Spec>;
      var len: nat := 0;
      if slug in entries {
        len := entries[slug].len;
        buf := Grown(entries[slug], spec);
      } else {
        buf := new Spec[1](_ => spec);
        assert buf[..1] == [] + [spec];
      }
      Renew(slug, buf, len + 1, SpecsOf(Specs, slug) + [spec]);
    }

    /** entries[slug] becomes a slice of a new buffer. */
    method Renew(slug: string, buf: array<Spec>, len: nat, ghost specs: seq<Spec>)
      requires Valid() && buf !in Repr && len <= buf.Length && buf[..len] == specs
      modifies this
      ensures Valid() && Repr == old(Repr) + {buf} && Specs == old(Specs)[slug := specs]
    {
      entries := entries[slug := Slice(buf, len)];
      Specs := Specs[slug := specs];
      Repr := Repr + {buf};
      owner := owner[buf := slug];
    }

    /** Writing behind a slice's length is not seen through any other slice. */
    method AppendInPlace(slug: string, spec: Spec)
      requires Valid() && slug in entries && entries[slug].len < entries[slug].buf.Length
      modifies Repr
      ensures Valid() && Repr == old(Repr)
      ensures Specs == old(Specs)[slug := SpecsOf(old(Specs), slug) + [spec]]
    {
      var s := entries[slug];
      s.buf[s.len] := spec;
      assert s.buf[..s.len] == Specs[slug];
      assert s.buf[..s.len + 1] == Specs[slug] + [spec];
      entries := entries[slug := Slice(s.buf, s.len + 1)];
      Specs := Specs[slug := Specs[slug] + [spec]];
    }

    /** A copy: later steps modify Repr, and the copy is not part of it. */
    method List(slug: string) returns (out: array<Spec>)
      requires Valid()
      ensures fresh(out) && out !in Repr && out[..] == SpecsOf(Specs, slug)
    {
      if slug !in entries {
        out := new Spec[0];
        return;
      }
      var s := entries[slug];
      out := new Spec[s.len](i requires 0 <= i reads s.buf =>
        if i < s.buf.Length then s.buf[i] else Spec("", "", "", 0));
      assert out[..] == s.buf[..s.len];
    }

    /** The body of Delete's loop over the customers. */
    method DeleteFrom(slug: string, name: string) returns (hit: bool)
      requires Valid() && slug in entries
      modifies Repr
      ensures Valid() && Repr == old(Repr)
      ensures Specs == old(Specs)[slug := Without(old(Specs)[slug], name)]
      ensures hit == HasName(old(Specs)[slug], name)
    {
      hide Without, HasName;
      var s := entries[slug];
      var kept;
      assert s.buf[..s.len] == Specs[slug];
      kept, hit := FilterInPlace(s, name);
      assert s.buf[..kept] == Without(Specs[slug], name);
      entries := entries[slug := Slice(s.buf, kept)];
      Specs := Specs[slug := Without(Specs[slug], name)];
    }

    method Delete(name: string) returns (removed: bool)
      requires Valid()
      modifies Repr
      ensures Valid() && Repr == old(Repr)
      ensures removed == NameKnown(old(Specs), name) && Specs == AfterDelete(old(Specs), name)
    {
      hide Deleting, AfterDelete, NameKnown, HasName, Without;
      ghost var before := Specs;
      removed := false;
      DeletingStart(before, name);
      var todo := entries.Keys;
      while todo != {}
        invariant Valid() && Repr == old(Repr) && todo <= Specs.Keys
        invariant Deleting(before, Specs, todo, name, removed)
        decreases todo
      {
        var slug :| slug in todo;
        DeletingStep(before, Specs, todo, name, removed, slug);
        var hit := DeleteFrom(slug, name);
        removed := removed || hit;
        todo := todo - {slug};
      }
      DeletingEnd(before, Specs, name, removed);
    }
  }

  /** Delete halfway: the slugs in todo are as they were. */
  ghost predicate Deleting(before: State, now: State, todo: set<string>, name: string, removed: bool) {
    now == (map s | s in before :: if s in todo then before[s] else Without(before[s], name))
    && (removed <==> exists s :: s in before && s !in todo && HasName(before[s], name))
  }

  lemma DeletingStart(before: State, name: string)
    ensures Deleting(before, before, before.Keys, name, false)
  {
  }

  lemma DeletingEnd(before: State, now: State, name: string, removed: bool)
    requires Deleting(before, now, {}, name, removed)
    ensures removed == NameKnown(before, name) && now == AfterDelete(before, name)
  {
  }

  lemma DeletingStep(before: State, now: State, todo: set<string>, name: string, removed: bool, slug: string)
    requires Deleting(before, now, todo, name, removed) && slug in todo && slug in now
    ensures Deleting(before, now[slug := Without(now[slug], name)], todo - {slug}, name,
                     removed || HasName(now[slug], name))
  {
    if removed {
      var s :| s in before && s !in todo && HasName(before[s], name);
      assert s !in todo - {slug};
    }
  }

  /** A buffer with room for one more, the old specs copied and the new one behind. */
  method Grown(s: Slice, spec: Spec) returns (buf: array<Spec>)
    requires s.len <= s.buf.Length
    ensures fresh(buf) && s.len < buf.Length && buf[..s.len + 1] == s.buf[..s.len] + [spec]
  {
    buf := new Spec[2 * s.len + 1](_ => spec);
    for i := 0 to s.len
      invariant buf[..i] == s.buf[..i] && buf[s.len] == spec
    {
      buf[i] := s.buf[i];
      assert buf[..i + 1] == buf[..i] + [s.buf[i]];
      assert s.buf[..i + 1] == s.buf[..i] + [s.buf[i]];
    }
  }

  /** kept := specs[:0], then an append per spec that stays, in the same buffer. */
  method FilterInPlace(s: Slice, name: string) returns (kept: nat, hit: bool)
    requires s.len <= s.buf.Length
    modifies s.buf
    ensures kept <= s.len && s.buf[..kept] == Without(old(s.buf[..s.len]), name)
    ensures hit == HasName(old(s.buf[..s.len]), name)
  {
    ghost var specs := s.buf[..s.len];
    ghost var stay: seq<Spec> := [];
    assert Without(specs[..0], name) == [] && !HasName(specs[..0], name);
    hide Without, HasName;
    kept, hit := 0, false;
    for i := 0 to s.len
      invariant kept <= i && forall k :: i <= k < s.len ==> s.buf[k] == specs[k]
      invariant s.buf[..kept] == stay
      invariant stay == Without(specs[..i], name) && hit == HasName(specs[..i], name)
    {
      var spec := s.buf[i];
      TakeOne(specs, i, name);
      if spec.name == name {
        hit := true;
        continue;
      }
      s.buf[kept] := spec;
      kept := kept + 1;
      assert s.buf[..kept] == stay + [spec];
      stay := stay + [spec];
    }
    assert specs[..s.len] == specs;
  }

  lemma TakeOne(specs: seq<Spec>, i: nat, name: string)
    requires i < |specs|
    ensures HasName(specs[..i + 1], name) <==> HasName(specs[..i], name) || specs[i].name == name
    ensures specs[i].name == name ==> Without(specs[..i + 1], name) == Without(specs[..i], name)
    ensures specs[i].name != name ==> Without(specs[..i + 1], name) == Without(specs[..i], name) + [specs[i]]
  {
    assert specs[..i + 1] == specs[..i] + [specs[i]];
    Snoc(specs[..i], specs[i], name);
  }

  lemma Snoc(specs: seq<Spec>, spec: Spec, name: string)
    ensures HasName(specs + [spec], name) <==> HasName(specs, name) || spec.name == name
    ensures Without(specs + [spec], name) == Without(specs, name) + if spec.name == name then [] else [spec]
  {
    var all := specs + [spec];
    assert all[..|specs|] == specs;
    if spec.name == name {
      assert all[|specs|].name == name;
    }
    if i :| 0 <= i < |specs| && specs[i].name == name {
      assert all[i].name == name;
    }
  }

  // ---- runs ---------------------------------------------------------------------------------

  datatype Op = Register(slug: string, spec: Spec, now: int) | Delete(name: string)

  ghost function AfterAll(st: State, ops: seq<Op>): State {
    if |ops| == 0 then st else Step(AfterAll(st, ops[..|ops| - 1]), ops[|ops| - 1])
  }

  ghost function Step(st: State, op: Op): State {
    match op
    case Register(slug, spec, now) => AfterRegister(st, slug, spec, now)
    case Delete(name) => AfterDelete(st, name)
  }

  method Perform(r: Registry, op: Op)
    requires r.Valid()
    modifies r.Repr
    ensures r.Valid() && fresh(r.Repr - old(r.Repr))
    ensures r.Specs == Step(old(r.Specs), op)
  {
    match op
    case Register(slug, spec, now) =>
      var _ := r.Register(slug, spec, now);
    case Delete(name) =>
      var _ := r.Delete(name);
  }

  /** Any run of calls on a registry takes its contents through the steps. */
  method PerformAll(r: Registry, ops: seq<Op>)
    requires r.Valid()
    modifies r.Repr
    ensures r.Valid() && fresh(r.Repr - old(r.Repr))
    ensures r.Specs == AfterAll(old(r.Specs), ops)
  {
    for i := 0 to |ops|
      invariant r.Valid() && fresh(r.Repr - old(r.Repr))
      invariant r.Specs == AfterAll(old(r.Specs), ops[..i])
    {
      assert ops[..i + 1][..i] == ops[..i];
      Perform(r, ops[i]);
    }
    assert ops[..|ops|] == ops;
  }

  /** Main result: a list handed out says what it said through every later run
      of calls, in-place deletes included. */
  method ListThenRun(r: Registry, slug: string, ops: seq<Op>) returns (out: array<Spec>)
    requires r.Valid()
    modifies r.Repr
    ensures r.Valid() && fresh(out) && out[..] == SpecsOf(old(r.Specs), slug)
    ensures r.Specs == AfterAll(old(r.Specs), ops)
  {
    out := r.List(slug);
    PerformAll(r, ops);
  }

  ghost function After(ops: seq<Op>): State {
    AfterAll(map[], ops)
  }

  ghost predicate UniqueNames(specs: seq<Spec>) {
    forall i, j :: 0 <= i < j < |specs| ==> specs[i].name != specs[j].name
  }

  /** What the registry is meant to be: a map from (slug, name) to spec. */
  datatype Key = Key(slug: string, name: string)

  ghost function IdealStep(m: map<Key, Spec>, op: Op): map<Key, Spec> {
    match op
    case Register(slug, spec, now) =>
      if slug != "" && spec.name != "" && spec.body != "" && Key(slug, spec.name) !in m
      then m[Key(slug, spec.name) := Spec(spec.name, if spec.kind == "" then "macro" else spec.kind, spec.body,
                                          if spec.createdAt == 0 then now else spec.createdAt)]
      else m
    case Delete(name) => map k | k in m && k.name != name :: m[k]
  }

  ghost function Ideal(ops: seq<Op>): map<Key, Spec> {
    if |ops| == 0 then map[] else IdealStep(Ideal(ops[..|ops| - 1]), ops[|ops| - 1])
  }

  ghost predicate Listed(st: State, k: Key, spec: Spec) {
    k.slug in st && spec in st[k.slug] && spec.name == k.name
  }

  /** The lists hold exactly the entries of the map, each name once. */
  ghost predicate Represents(st: State, m: map<Key, Spec>) {
    (forall slug :: slug in st ==> UniqueNames(st[slug]))
    && (forall k, spec :: Listed(st, k, spec) <==> k in m && m[k] == spec)
  }

  lemma {:induction false} WithoutHas(specs: seq<Spec>, name: string, spec: Spec)
    ensures spec in Without(specs, name) <==> spec in specs && spec.name != name
  {
    if |specs| > 0 {
      var n := |specs| - 1;
      WithoutHas(specs[..n], name, spec);
      assert specs == specs[..n] + [specs[n]];
    }
  }

  lemma {:induction false} WithoutUnique(specs: seq<Spec>, name: string)
    requires UniqueNames(specs)
    ensures UniqueNames(Without(specs, name))
  {
    if |specs| > 0 {
      var n := |specs| - 1;
      WithoutUnique(specs[..n], name);
      var rest := Without(specs[..n], name);
      forall i | 0 <= i < |rest| ensures rest[i].name != specs[n].name {
        WithoutHas(specs[..n], name, rest[i]);
        var k :| 0 <= k < n && specs[k] == rest[i];
      }
    }
  }

  lemma HasNameIff(specs: seq<Spec>, name: string)
    ensures HasName(specs, name) <==> exists spec :: spec in specs && spec.name == name
  {
    if i :| 0 <= i < |specs| && specs[i].name == name {
      assert specs[i] in specs;
    }
  }

  lemma RegisterRepresents(st: State, m: map<Key, Spec>, slug: string, spec: Spec, now: int)
    requires Represents(st, m)
    ensures Represents(AfterRegister(st, slug, spec, now), IdealStep(m, Op.Register(slug, spec, now)))
  {
    var specs, key, done := SpecsOf(st, slug), Key(slug, spec.name), Completed(spec, now);
    HasNameIff(specs, spec.name);
    if s :| s in specs && s.name == spec.name {
      assert Listed(st, key, s);
    }
    if key in m {
      assert Listed(st, key, m[key]);
    }
    assert HasName(specs, spec.name) <==> key in m;
    var st', m' := AfterRegister(st, slug, spec, now), IdealStep(m, Op.Register(slug, spec, now));
    if Outcome(st, slug, spec) == Registered {
      assert st' == st[slug := specs + [done]] && m' == m[key := done];
      forall k, s ensures Listed(st', k, s) <==> k in m' && m'[k] == s {
        assert Listed(st, k, s) <==> k in m && m[k] == s;
        assert k.slug == slug ==> (s in st'[slug] <==> s in specs || s == done);
      }
      assert UniqueNames(st'[slug]);
    }
  }

  lemma DeleteRepresents(st: State, m: map<Key, Spec>, name: string)
    requires Represents(st, m)
    ensures Represents(AfterDelete(st, name), IdealStep(m, Op.Delete(name)))
  {
    var st', m' := AfterDelete(st, name), IdealStep(m, Op.Delete(name));
    forall slug | slug in st' ensures UniqueNames(st'[slug]) {
      WithoutUnique(st[slug], name);
    }
    forall k, s ensures Listed(st', k, s) <==> k in m' && m'[k] == s {
      assert Listed(st, k, s) <==> k in m && m[k] == s;
      if k.slug in st {
        WithoutHas(st[k.slug], name, s);
      }
    }
  }

  /** Main result: over any run the registry is the map from (slug, name) to
      spec, and no customer has a name twice. */
  lemma {:induction false} RegistryIsMap(ops: seq<Op>)
    ensures Represents(After(ops), Ideal(ops))
  {
    if |ops| > 0 {
      var n := |ops| - 1;
      RegistryIsMap(ops[..n]);
      match ops[n]
      case Register(slug, spec, now) => RegisterRepresents(After(ops[..n]), Ideal(ops[..n]), slug, spec, now);
      case Delete(name) => DeleteRepresents(After(ops[..n]), Ideal(ops[..n]), name);
    }
  }

  /** Main result: the class, driven through any run from its constructor, is
      that map. */
  method RegistryFromRun(ops: seq<Op>) returns (r: Registry)
    ensures fresh(r) && r.Valid() && Represents(r.Specs, Ideal(ops))
  {
    r := new Registry();
    PerformAll(r, ops);
    RegistryIsMap(ops);
  }
}
