/** Compiling and replaying agree, and what every chain of compiled generations keeps. */
module Replay {
  import opened Wrappers
  import opened Texts
  import opened Bundles

  // ---- one bundle ----

  lemma CompiledParts(proof: Proof, sp: SkillPatch, ip: ImproverPatch, revoked: set<string>)
    requires Compile(proof, sp, ip, revoked).Ok?
    ensures var b := Compile(proof, sp, ip, revoked).value;
            && b.schema == BUNDLE_SCHEMA && b.compiler == COMPILER_VERSION && b.profile == proof.profile.id
            && b.parent == proof.profile.parent && b.baseline == proof.profile.baseline
            && b.skill == ApplySkill(sp, ParentSkill(proof.parent), proof.baseline.skill)
            && b.improver == ApplyImprover(ip, ParentStrategy(proof.parent), proof.baseline.strategy)
            && ValidSkill(b.skill) && ValidStrategy(b.improver)
            && b.digest == BundleDigest(b)
  {
    hide ValidSkill, ValidStrategy, ValidLeaf, AnyRevoked, Allows, ApplySkill, ApplyImprover, OriginOf;
  }

  lemma CompiledOrigin(proof: Proof, sp: SkillPatch, ip: ImproverPatch, revoked: set<string>, k: nat, f: Field)
    requires Compile(proof, sp, ip, revoked).Ok? && k < 8 && f == FIELDS[k]
    ensures var b := Compile(proof, sp, ip, revoked).value; var leaf := LeafOf(b.skill, b.improver, f);
            && KnownOrigins(b.origins) && HasOrigin(b.origins, f)
            && OriginFor(b.origins, f) == OriginOf(f, OpAt(sp, ip, f), leaf, proof.profile)
            && ValidLeaf(f, leaf)
  {
    hide ValidSkill, ValidStrategy, ValidLeaf, AnyRevoked, Allows, ApplySkill, ApplyImprover, LeafOf, OpAt, KnownOrigins, HasOrigin, OriginFor;
    var b := Compile(proof, sp, ip, revoked).value;
    CompiledOrigins(b.origins);
    OriginAt(b.origins, k, f);
  }

  lemma KnownField(f: Field) returns (k: nat)
    requires !f.Unknown?
    ensures k < 8 && FIELDS[k] == f
  {
    k := if f == Content then 0 else if f == Applicability then 1 else if f == Counterexample then 2
         else if f == Capabilities then 3 else if f == Dependencies then 4 else if f == Instruction then 5
         else if f == Candidates then 6 else 7;
  }

  lemma FieldKnown(k: nat)
    requires k < 8
    ensures !FIELDS[k].Unknown?
  {
  }

  lemma OpIs(sp: SkillPatch, ip: ImproverPatch, f: Field)
    requires !f.Unknown?
    ensures OpAt(sp, ip, f) == InheritOp || OpAt(sp, ip, f) == ResetOp || OpAt(sp, ip, f) == SetOp
  {
  }

  lemma OpRecovered(proof: Proof, sp: SkillPatch, ip: ImproverPatch, revoked: set<string>, k: nat, f: Field)
    requires Compile(proof, sp, ip, revoked).Ok? && k < 8 && f == FIELDS[k]
    ensures var b := Compile(proof, sp, ip, revoked).value;
            KnownOrigins(b.origins) && HasOrigin(b.origins, f) && OriginFor(b.origins, f).op == OpAt(sp, ip, f)
  {
    hide Compile, KnownOrigins, HasOrigin, OriginFor, LeafOf, OpAt, ValidLeaf;
    CompiledOrigin(proof, sp, ip, revoked, k, f);
  }

  lemma SkillRecovered(proof: Proof, sp: SkillPatch, ip: ImproverPatch, revoked: set<string>)
    requires Compile(proof, sp, ip, revoked).Ok?
    ensures var b := Compile(proof, sp, ip, revoked).value; KnownOrigins(b.origins) && ReplayedSkill(b) == sp
  {
    hide Compile, KnownOrigins, HasOrigin, OriginFor, ValidSkill, ValidStrategy;
    CompiledParts(proof, sp, ip, revoked);
    OpRecovered(proof, sp, ip, revoked, 0, Content);
    OpRecovered(proof, sp, ip, revoked, 1, Applicability);
    OpRecovered(proof, sp, ip, revoked, 2, Counterexample);
    OpRecovered(proof, sp, ip, revoked, 3, Capabilities);
    OpRecovered(proof, sp, ip, revoked, 4, Dependencies);
  }

  lemma ImproverRecovered(proof: Proof, sp: SkillPatch, ip: ImproverPatch, revoked: set<string>)
    requires Compile(proof, sp, ip, revoked).Ok?
    ensures var b := Compile(proof, sp, ip, revoked).value; KnownOrigins(b.origins) && ReplayedImprover(b) == ip
  {
    hide Compile, KnownOrigins, HasOrigin, OriginFor, ValidSkill, ValidStrategy;
    CompiledParts(proof, sp, ip, revoked);
    OpRecovered(proof, sp, ip, revoked, 5, Instruction);
    OpRecovered(proof, sp, ip, revoked, 6, Candidates);
    OpRecovered(proof, sp, ip, revoked, 7, Rounds);
  }

  /** The patches read off a compiled bundle are the patches it was compiled from. */
  lemma PatchesRecovered(proof: Proof, sp: SkillPatch, ip: ImproverPatch, revoked: set<string>)
    requires Compile(proof, sp, ip, revoked).Ok?
    ensures var b := Compile(proof, sp, ip, revoked).value;
            KnownOrigins(b.origins) && ReplayedSkill(b) == sp && ReplayedImprover(b) == ip
  {
    hide *;
    SkillRecovered(proof, sp, ip, revoked);
    ImproverRecovered(proof, sp, ip, revoked);
  }

  lemma CompiledIsCurrent(proof: Proof, sp: SkillPatch, ip: ImproverPatch, revoked: set<string>)
    requires Compile(proof, sp, ip, revoked).Ok?
    requires IsIdentifier(proof.profile.id) && DigestFormat(proof.profile.parent) && DigestFormat(proof.profile.baseline)
    ensures CurrentContent(Compile(proof, sp, ip, revoked).value)
  {
    hide Compile, KnownOrigins, HasOrigin, OriginFor, ValidLeaf, ValidSkill, ValidStrategy, LeafOf, OpAt, ApplySkill, ApplyImprover;
    hide IsIdentifier;
    var b := Compile(proof, sp, ip, revoked).value;
    CompiledParts(proof, sp, ip, revoked);
    CompiledOrigin(proof, sp, ip, revoked, 0, Content);
    forall k | 0 <= k < 8
      ensures HasOrigin(b.origins, FIELDS[k])
    {
      CompiledOrigin(proof, sp, ip, revoked, k, FIELDS[k]);
    }
    forall k | 0 <= k < 8
      ensures LeafReplays(FIELDS[k], OriginFor(b.origins, FIELDS[k]), LeafOf(b.skill, b.improver, FIELDS[k]), b.parent, b.baseline)
    {
      var f := FIELDS[k];
      CompiledOrigin(proof, sp, ip, revoked, k, f);
      FieldKnown(k);
      OpIs(sp, ip, f);
    }
  }

  lemma ProvenParts(proof: Proof)
    requires Proven(proof)
    ensures IsIdentifier(proof.profile.id) && DigestFormat(proof.profile.parent) && DigestFormat(proof.profile.baseline)
  {
    hide IsIdentifier, ValidSkill, ValidStrategy, CurrentContent, Allows;
  }

  /** Compiling makes a bundle that replay accepts. */
  lemma CompiledReplays(proof: Proof, sp: SkillPatch, ip: ImproverPatch, revoked: set<string>)
    requires Proven(proof) && Compile(proof, sp, ip, revoked).Ok?
    ensures Replays(Compile(proof, sp, ip, revoked).value, proof, revoked)
  {
    hide Compile, CurrentContent, Proven, KnownOrigins, IsIdentifier, ValidSkill, ValidStrategy, ReplayedSkill, ReplayedImprover;
    ProvenParts(proof);
    CompiledParts(proof, sp, ip, revoked);
    CompiledIsCurrent(proof, sp, ip, revoked);
    PatchesRecovered(proof, sp, ip, revoked);
  }

  /** Replay accepts a bundle exactly when some patches compile to it, to its origins and their order. */
  lemma ReplayExactly(b: Bundle, proof: Proof, revoked: set<string>)
    requires Proven(proof)
    ensures Replays(b, proof, revoked) <==>
            exists sp: SkillPatch, ip: ImproverPatch :: Compile(proof, sp, ip, revoked) == Ok(b)
  {
    hide Compile, CurrentContent, Proven, KnownOrigins;
    if exists sp: SkillPatch, ip: ImproverPatch :: Compile(proof, sp, ip, revoked) == Ok(b) {
      var sp: SkillPatch, ip: ImproverPatch :| Compile(proof, sp, ip, revoked) == Ok(b);
      CompiledReplays(proof, sp, ip, revoked);
    }
  }

  /** A complete bundle is known by its digest. */
  lemma DigestIdentifies(a: Bundle, b: Bundle)
    requires CurrentContent(a) && CurrentContent(b) && a.digest == b.digest
    ensures a == b
  {
    hide IsIdentifier, ValidSkill, ValidStrategy, PatchesReplay;
    assert a.(digest := UNSIGNED) == b.(digest := UNSIGNED);
  }

  // ---- chains of generations ----

  datatype Generation = Generation(
    proof: Proof,
    skillPatch: SkillPatch,
    improverPatch: ImproverPatch,
    revoked: set<string>,
    bundle: Bundle)

  predicate Compiled(g: Generation) {
    Proven(g.proof) && Compile(g.proof, g.skillPatch, g.improverPatch, g.revoked) == Ok(g.bundle)
  }

  /** Each generation was compiled on the one before; the first on an empty root. */
  predicate Chain(gens: seq<Generation>) {
    && (forall i :: 0 <= i < |gens| ==> Compiled(gens[i]))
    && (gens != [] ==> gens[0].proof.parent.EmptyRoot?)
    && forall i :: 0 < i < |gens| ==> gens[i].proof.parent == CurrentBundle(gens[i - 1].bundle)
  }

  /** What a compiled generation promises, whatever its patches. */
  predicate Safe(g: Generation) {
    && !AnyRevoked(ParentSkill(g.proof.parent).dependencies, g.revoked)
    && !AnyRevoked(g.proof.baseline.skill.dependencies, g.revoked)
    && !AnyRevoked(g.bundle.skill.dependencies, g.revoked)
    && (forall i :: 0 <= i < |g.bundle.skill.capabilities| ==>
          && g.bundle.skill.capabilities[i] in g.proof.baseline.capabilities.available
          && g.bundle.skill.capabilities[i] in g.proof.baseline.capabilities.granted)
    && g.bundle.improver.requireCounterexample == ParentStrategy(g.proof.parent).requireCounterexample
    && g.bundle.improver.schema == STRATEGY_SCHEMA
  }

  lemma CompiledSafe(g: Generation)
    requires Compiled(g)
    ensures Safe(g)
  {
    hide Proven, ValidSkill, IsText, AnyRevoked, CompileLeaves, ApplySkill;
  }

  lemma RootStrategy(proof: Proof)
    requires Proven(proof) && proof.parent.EmptyRoot?
    ensures ParentStrategy(proof.parent) == ROOT_STRATEGY && ParentSkill(proof.parent) == EMPTY_SKILL
    ensures proof.profile.parent == RootHash(proof.parent.root)
  {
    hide IsIdentifier, ValidSkill, ValidStrategy, Allows;
  }

  /** Over every chain: nothing revoked goes in or comes out, capabilities stay granted and available, and the
      counterexample requirement is never dropped. */
  lemma {:induction false} ChainSafe(gens: seq<Generation>, i: nat)
    requires Chain(gens) && i < |gens|
    ensures Safe(gens[i]) && gens[i].bundle.improver.requireCounterexample
    decreases i
  {
    hide Compiled, AnyRevoked;
    CompiledSafe(gens[i]);
    if i == 0 {
      FirstRequires(gens[0]);
    } else {
      ChainSafe(gens, i - 1);
    }
  }

  lemma FirstRequires(g: Generation)
    requires Compiled(g) && g.proof.parent.EmptyRoot?
    ensures ParentStrategy(g.proof.parent).requireCounterexample
  {
    hide Compile, Proven;
    RootStrategy(g.proof);
  }

  // ---- following a leaf back ----

  function OriginIn(g: Generation, f: Field): (o: Origin)
    requires HasOrigin(g.bundle.origins, f)
  {
    OriginFor(g.bundle.origins, f)
  }

  function LeafIn(g: Generation, f: Field): Value {
    LeafOf(g.bundle.skill, g.bundle.improver, f)
  }

  /** What the origin of a leaf says is so: an inherited leaf is the parent's, a reset one the baseline's, and a set
      one is bound to its field and value; its value digest is that of the value. */
  predicate OriginTells(g: Generation, f: Field) {
    && HasOrigin(g.bundle.origins, f)
    && var o, leaf := OriginIn(g, f), LeafIn(g, f);
       && o.value == ValueHash(leaf)
       && match o.layer
          case ParentLayer =>
            && o.op == InheritOp && o.source == g.bundle.parent == g.proof.profile.parent
            && leaf == LeafOf(ParentSkill(g.proof.parent), ParentStrategy(g.proof.parent), f)
          case BaselineLayer =>
            && o.op == ResetOp && o.source == BaselineHash(g.proof.baseline)
            && leaf == LeafOf(g.proof.baseline.skill, g.proof.baseline.strategy, f)
          case ExplicitLayer => o.op == SetOp && o.source == SourceHash(f, leaf)
  }

  lemma InheritKeeps(sp: SkillPatch, ip: ImproverPatch, p: Skill, ps: Strategy, b: Skill, bs: Strategy, f: Field)
    requires !f.Unknown?
    ensures var leaf := LeafOf(ApplySkill(sp, p, b), ApplyImprover(ip, ps, bs), f);
            && (OpAt(sp, ip, f) == InheritOp ==> leaf == LeafOf(p, ps, f))
            && (OpAt(sp, ip, f) == ResetOp ==> leaf == LeafOf(b, bs, f))
  {
  }

  lemma ProvenBaseline(proof: Proof)
    requires Proven(proof)
    ensures proof.profile.baseline == BaselineHash(proof.baseline)
  {
    hide IsIdentifier, ValidSkill, ValidStrategy, Allows, CurrentContent;
  }

  lemma CompiledTells(g: Generation, f: Field)
    requires Compiled(g) && !f.Unknown?
    ensures OriginTells(g, f)
  {
    hide Compile, Proven, KnownOrigins, HasOrigin, OriginFor, ValidLeaf, ValidSkill, ValidStrategy, LeafOf, OpAt, ApplySkill, ApplyImprover;
    var k := KnownField(f);
    CompiledParts(g.proof, g.skillPatch, g.improverPatch, g.revoked);
    CompiledOrigin(g.proof, g.skillPatch, g.improverPatch, g.revoked, k, f);
    OpIs(g.skillPatch, g.improverPatch, f);
    InheritKeeps(g.skillPatch, g.improverPatch, ParentSkill(g.proof.parent), ParentStrategy(g.proof.parent),
                 g.proof.baseline.skill, g.proof.baseline.strategy, f);
    ProvenBaseline(g.proof);
  }

  /** The generation a leaf comes from: the last one that did not inherit it; none, if all did. */
  function SourceOf(gens: seq<Generation>, i: nat, f: Field): Option<nat>
    requires i < |gens|
    decreases i
  {
    if !HasOrigin(gens[i].bundle.origins, f) || OriginIn(gens[i], f).layer != ParentLayer then Some(i)
    else if i == 0 then None
    else SourceOf(gens, i - 1, f)
  }

  /** The leaf is inherited, by a digest that is the one of the generation before, with its value unchanged. */
  predicate InheritedAt(gens: seq<Generation>, j: nat, f: Field)
    requires 0 < j < |gens|
  {
    && OriginTells(gens[j], f) && OriginTells(gens[j - 1], f)
    && OriginIn(gens[j], f).layer == ParentLayer
    && OriginIn(gens[j], f).source == gens[j - 1].bundle.digest
    && OriginIn(gens[j], f).value == OriginIn(gens[j - 1], f).value
    && LeafIn(gens[j], f) == LeafIn(gens[j - 1], f)
  }

  /** Following the leaf of a generation back ends at generation k, or at the empty root. */
  predicate TracedTo(gens: seq<Generation>, i: nat, f: Field, source: Option<nat>)
    requires i < |gens|
  {
    match source
    case Some(k) =>
      && k <= i && (forall j :: k < j <= i ==> InheritedAt(gens, j, f))
      && OriginTells(gens[k], f) && OriginIn(gens[k], f).layer != ParentLayer
      && LeafIn(gens[i], f) == LeafIn(gens[k], f)
    case None =>
      && (forall j :: 0 < j <= i ==> InheritedAt(gens, j, f))
      && OriginTells(gens[0], f) && OriginIn(gens[0], f).layer == ParentLayer
      && gens[0].proof.parent.EmptyRoot? && OriginIn(gens[0], f).source == RootHash(gens[0].proof.parent.root)
      && LeafIn(gens[i], f) == LeafOf(EMPTY_SKILL, ROOT_STRATEGY, f)
  }

  lemma StepInherits(gens: seq<Generation>, j: nat, f: Field)
    requires Chain(gens) && 0 < j < |gens| && !f.Unknown?
    requires HasOrigin(gens[j].bundle.origins, f) && OriginIn(gens[j], f).layer == ParentLayer
    ensures InheritedAt(gens, j, f)
  {
    hide Compile, Proven, HasOrigin, OriginFor, LeafOf;
    CompiledTells(gens[j], f);
    CompiledTells(gens[j - 1], f);
    ProvenParent(gens[j].proof);
  }

  lemma ProvenParent(proof: Proof)
    requires Proven(proof) && proof.parent.CurrentBundle?
    ensures proof.profile.parent == proof.parent.bundle.digest
  {
    hide IsIdentifier, ValidSkill, ValidStrategy, Allows, CurrentContent;
  }

  /** Over every chain, following a leaf's inherit origins back through the parent digests ends where it was set, reset
      to a baseline, or at the root, with its value and value digest unchanged all the way. */
  lemma {:induction false} LeafTraced(gens: seq<Generation>, i: nat, f: Field)
    requires Chain(gens) && i < |gens| && !f.Unknown?
    ensures TracedTo(gens, i, f, SourceOf(gens, i, f))
    decreases i
  {
    hide Compile, Proven, HasOrigin, OriginFor, LeafOf, Compiled, InheritedAt;
    CompiledTells(gens[i], f);
    if OriginIn(gens[i], f).layer == ParentLayer {
      if i == 0 {
        FirstFromRoot(gens[0], f);
      } else {
        LeafTraced(gens, i - 1, f);
        StepInherits(gens, i, f);
        InheritedLeaf(gens, i, f);
      }
    }
  }

  lemma CompiledComplete(g: Generation)
    requires Compiled(g)
    ensures CurrentContent(g.bundle)
  {
    hide Compile, Proven, CurrentContent;
    ProvenParts(g.proof);
    CompiledIsCurrent(g.proof, g.skillPatch, g.improverPatch, g.revoked);
  }

  /** A parent digest leads to one bundle only: any complete bundle that bears it is the one of the generation before. */
  lemma ParentIdentified(gens: seq<Generation>, j: nat, b: Bundle)
    requires Chain(gens) && 0 < j < |gens|
    requires CurrentContent(b) && b.digest == gens[j].proof.profile.parent
    ensures b == gens[j - 1].bundle
  {
    hide Compile, Proven, CurrentContent;
    assert gens[j].proof.parent == CurrentBundle(gens[j - 1].bundle);
    ProvenParent(gens[j].proof);
    CompiledComplete(gens[j - 1]);
    DigestIdentifies(b, gens[j - 1].bundle);
  }

  lemma InheritedLeaf(gens: seq<Generation>, j: nat, f: Field)
    requires 0 < j < |gens| && InheritedAt(gens, j, f)
    ensures LeafIn(gens[j], f) == LeafIn(gens[j - 1], f)
  {
  }

  lemma FirstFromRoot(g: Generation, f: Field)
    requires Compiled(g) && g.proof.parent.EmptyRoot? && OriginTells(g, f) && OriginIn(g, f).layer == ParentLayer
    ensures LeafIn(g, f) == LeafOf(EMPTY_SKILL, ROOT_STRATEGY, f)
    ensures OriginIn(g, f).source == RootHash(g.proof.parent.root)
  {
    hide Compile, Proven, HasOrigin, OriginFor, LeafOf;
    RootStrategy(g.proof);
  }
}
