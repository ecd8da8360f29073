/** What a player learns from a trainer: the closure of the teaching effect over the spell table. */
module Teaching {
  import Octets

  /** Teaching a spell is effect 36; its trigger names the spell taught. */
  const LEARN_SPELL := 36

  datatype Slot = Slot(effect: int, aura: int, trigger: int, targetA: int, targetB: int, misc: int)
  datatype Spell = Spell(name: string, slots: seq<Slot>)
  type Spells = map<int, Spell>

  datatype Failure = Cyclic(spell: int) | Missing(spell: int)
  datatype Learning = Learned(spells: set<int>) | Fails(why: Failure)

  function Triggers(slots: seq<Slot>): seq<int> {
    if slots == [] then []
    else (if slots[0].effect == LEARN_SPELL then [slots[0].trigger] else []) + Triggers(slots[1..])
  }

  /** The spells that a spell of the table teaches, in slot order. */
  function Taught(spells: Spells, spell: int): seq<int> {
    if spell in spells then Triggers(spells[spell].slots) else []
  }

  function Learn(spells: Spells, spell: int, visiting: set<int>): Learning
    decreases spells.Keys - visiting, 1, 0
  {
    if spell in visiting then Fails(Cyclic(spell))
    else if spell !in spells then Fails(Missing(spell))
    else if Taught(spells, spell) == [] then Learned({spell})
    else
      assert spells.Keys - (visiting + {spell}) < spells.Keys - visiting by {
        assert spell in spells.Keys - visiting && spell !in spells.Keys - (visiting + {spell});
      }
      LearnAll(spells, Taught(spells, spell), visiting + {spell})
  }

  /** The union over the taught spells; the first failure ends it. */
  function LearnAll(spells: Spells, targets: seq<int>, visiting: set<int>): Learning
    decreases spells.Keys - visiting, 2, |targets|
  {
    if targets == [] then Learned({})
    else
      match Learn(spells, targets[0], visiting)
      case Fails(why) => Fails(why)
      case Learned(first) =>
        match LearnAll(spells, targets[1..], visiting)
        case Fails(why) => Fails(why)
        case Learned(rest) => Learned(first + rest)
  }

  // ----- walks through the teaching graph

  /** Every spell after the first is taught by the one before it. */
  ghost predicate Walk(spells: Spells, walk: seq<int>) {
    walk != [] && forall i | 0 <= i < |walk| - 1 :: walk[i + 1] in Taught(spells, walk[i])
  }

  ghost predicate WalkBetween(spells: Spells, walk: seq<int>, from: int, to: int) {
    Walk(spells, walk) && walk[0] == from && walk[|walk| - 1] == to
  }

  ghost predicate Reaches(spells: Spells, from: int, to: int) {
    exists walk :: WalkBetween(spells, walk, from, to)
  }

  ghost predicate OnCycle(spells: Spells, spell: int) {
    exists next :: next in Taught(spells, spell) && Reaches(spells, next, spell)
  }

  /** The walk stays in the table, avoids the visited spells and repeats nothing. */
  ghost predicate Clean(spells: Spells, walk: seq<int>, visiting: set<int>) {
    && (forall i | 0 <= i < |walk| :: walk[i] in spells && walk[i] !in visiting)
    && (forall i, j | 0 <= i < j < |walk| :: walk[i] != walk[j])
  }

  ghost predicate AllClean(spells: Spells, from: int, visiting: set<int>) {
    forall walk | Walk(spells, walk) && walk[0] == from :: Clean(spells, walk, visiting)
  }

  lemma CleanExtends(spells: Spells, spell: int, next: int, visiting: set<int>)
    requires next in Taught(spells, spell) && AllClean(spells, spell, visiting)
    ensures AllClean(spells, next, visiting + {spell})
  {
    forall walk | Walk(spells, walk) && walk[0] == next
      ensures Clean(spells, walk, visiting + {spell})
    {
      var longer := [spell] + walk;
      assert Walk(spells, longer);
      assert Clean(spells, longer, visiting);
      forall i | 0 <= i < |walk| ensures walk[i] in spells && walk[i] !in visiting + {spell} {
        assert longer[i + 1] == walk[i] && longer[0] == spell;
      }
      forall i, j | 0 <= i < j < |walk| ensures walk[i] != walk[j] {
        assert longer[i + 1] == walk[i] && longer[j + 1] == walk[j];
      }
    }
  }

  /** The recursion succeeds exactly when every walk from the spell is clean. */
  lemma {:induction false} LearnIffClean(spells: Spells, spell: int, visiting: set<int>)
    ensures Learn(spells, spell, visiting).Learned? <==> AllClean(spells, spell, visiting)
    decreases spells.Keys - visiting, 1, 0
  {
    assert Walk(spells, [spell]);
    if AllClean(spells, spell, visiting) {
      assert Clean(spells, [spell], visiting) && [spell][0] == spell;
      if Taught(spells, spell) != [] {
        assert spell in spells.Keys - visiting && spell !in spells.Keys - (visiting + {spell});
        forall next | next in Taught(spells, spell) ensures AllClean(spells, next, visiting + {spell}) {
          CleanExtends(spells, spell, next, visiting);
        }
        LearnAllIffClean(spells, Taught(spells, spell), visiting + {spell});
      }
    }
    if Learn(spells, spell, visiting).Learned? {
      forall walk | Walk(spells, walk) && walk[0] == spell ensures Clean(spells, walk, visiting) {
        if |walk| > 1 {
          assert walk[1] in Taught(spells, spell);
          assert spell in spells.Keys - visiting && spell !in spells.Keys - (visiting + {spell});
          LearnAllIffClean(spells, Taught(spells, spell), visiting + {spell});
          assert Walk(spells, walk[1..]) && walk[1..][0] == walk[1];
          assert Clean(spells, walk[1..], visiting + {spell});
          forall i | 0 < i < |walk| ensures walk[i] in spells && walk[i] !in visiting + {spell} {
            assert walk[1..][i - 1] == walk[i];
          }
          forall i, j | 0 < i < j < |walk| ensures walk[i] != walk[j] {
            assert walk[1..][i - 1] == walk[i] && walk[1..][j - 1] == walk[j];
          }
        }
      }
    }
  }

  lemma {:induction false} LearnAllIffClean(spells: Spells, targets: seq<int>, visiting: set<int>)
    ensures LearnAll(spells, targets, visiting).Learned?
       <==> forall next | next in targets :: AllClean(spells, next, visiting)
    decreases spells.Keys - visiting, 2, |targets|
  {
    if targets != [] {
      LearnIffClean(spells, targets[0], visiting);
      LearnAllIffClean(spells, targets[1..], visiting);
      assert forall next :: next in targets <==> next == targets[0] || next in targets[1..];
    }
  }

  lemma JoinWalks(spells: Spells, a: seq<int>, b: seq<int>, from: int, middle: int, next: int, to: int)
    requires WalkBetween(spells, a, from, middle) && next in Taught(spells, middle) && WalkBetween(spells, b, next, to)
    ensures WalkBetween(spells, a + b, from, to)
  {
    forall i | 0 <= i < |a + b| - 1 ensures (a + b)[i + 1] in Taught(spells, (a + b)[i]) {
      if i < |a| - 1 {
        assert (a + b)[i] == a[i] && (a + b)[i + 1] == a[i + 1];
      } else if i >= |a| {
        assert (a + b)[i] == b[i - |a|] && (a + b)[i + 1] == b[i - |a| + 1];
      }
    }
  }

  lemma PartOfWalk(spells: Spells, walk: seq<int>, i: nat, j: nat)
    requires Walk(spells, walk) && i <= j < |walk|
    ensures WalkBetween(spells, walk[i..j + 1], walk[i], walk[j])
  {
    var part := walk[i..j + 1];
    forall k | 0 <= k < |part| - 1 ensures part[k + 1] in Taught(spells, part[k]) {
      assert part[k] == walk[i + k] && part[k + 1] == walk[i + k + 1];
    }
  }

  /** No missing spell and no cycle can be reached. */
  ghost predicate Sound(spells: Spells, spell: int) {
    forall other | Reaches(spells, spell, other) :: other in spells && !OnCycle(spells, other)
  }

  /** Going round a reachable cycle once is a walk that repeats a spell. */
  lemma CycleIsNotClean(spells: Spells, spell: int, other: int)
    requires Reaches(spells, spell, other) && OnCycle(spells, other)
    ensures !AllClean(spells, spell, {})
  {
    var walk :| WalkBetween(spells, walk, spell, other);
    var next :| next in Taught(spells, other) && Reaches(spells, next, other);
    var back :| WalkBetween(spells, back, next, other);
    JoinWalks(spells, walk, back, spell, other, next, other);
    var i, j := |walk| - 1, |walk + back| - 1;
    assert (walk + back)[i] == other == (walk + back)[j];
    assert !Clean(spells, walk + back, {});
  }

  lemma RepeatIsCycle(spells: Spells, walk: seq<int>, i: nat, j: nat)
    requires Walk(spells, walk) && i < j < |walk| && walk[i] == walk[j]
    ensures OnCycle(spells, walk[i])
  {
    PartOfWalk(spells, walk, i + 1, j);
  }

  lemma CleanIffSound(spells: Spells, spell: int)
    ensures AllClean(spells, spell, {}) <==> Sound(spells, spell)
  {
    if AllClean(spells, spell, {}) {
      forall other | Reaches(spells, spell, other) ensures other in spells && !OnCycle(spells, other) {
        var walk :| WalkBetween(spells, walk, spell, other);
        assert Clean(spells, walk, {});
        if OnCycle(spells, other) {
          CycleIsNotClean(spells, spell, other);
        }
      }
    }
    if Sound(spells, spell) {
      forall walk | Walk(spells, walk) && walk[0] == spell ensures Clean(spells, walk, {}) {
        forall i | 0 <= i < |walk| ensures Reaches(spells, spell, walk[i]) {
          PartOfWalk(spells, walk, 0, i);
        }
        forall i, j | 0 <= i < j < |walk| ensures walk[i] != walk[j] {
          if walk[i] == walk[j] {
            RepeatIsCycle(spells, walk, i, j);
          }
        }
      }
    }
  }

  /** A value comes back exactly when neither a missing spell nor a cycle can be reached. */
  lemma LearnSucceeds(spells: Spells, spell: int)
    ensures Learn(spells, spell, {}).Learned? <==> Sound(spells, spell)
  {
    LearnIffClean(spells, spell, {});
    CleanIffSound(spells, spell);
  }

  /** A spell that teaches nothing. */
  ghost predicate Final(spells: Spells, spell: int) {
    spell in spells && Taught(spells, spell) == []
  }

  lemma ReachStep(spells: Spells, spell: int, other: int)
    ensures Reaches(spells, spell, other)
       <==> spell == other || exists next :: next in Taught(spells, spell) && Reaches(spells, next, other)
  {
    assert WalkBetween(spells, [spell], spell, spell);
    if Reaches(spells, spell, other) && spell != other {
      var walk :| WalkBetween(spells, walk, spell, other);
      PartOfWalk(spells, walk, 1, |walk| - 1);
    }
    if next :| next in Taught(spells, spell) && Reaches(spells, next, other) {
      var walk :| WalkBetween(spells, walk, next, other);
      JoinWalks(spells, [spell], walk, spell, spell, next, other);
    }
  }

  /** The value is the set of reachable spells that teach nothing. */
  lemma {:induction false} LearnValue(spells: Spells, spell: int, visiting: set<int>)
    requires Learn(spells, spell, visiting).Learned?
    ensures forall other :: other in Learn(spells, spell, visiting).spells
              <==> Reaches(spells, spell, other) && Final(spells, other)
    decreases spells.Keys - visiting, 1, 0
  {
    forall other { ReachStep(spells, spell, other); }
    if Taught(spells, spell) != [] {
      assert spell in spells.Keys - visiting && spell !in spells.Keys - (visiting + {spell});
      LearnAllValue(spells, Taught(spells, spell), visiting + {spell});
    }
  }

  lemma {:induction false} LearnAllValue(spells: Spells, targets: seq<int>, visiting: set<int>)
    requires LearnAll(spells, targets, visiting).Learned?
    ensures forall other :: other in LearnAll(spells, targets, visiting).spells
              <==> (exists next :: next in targets && Reaches(spells, next, other)) && Final(spells, other)
    decreases spells.Keys - visiting, 2, |targets|
  {
    if targets != [] {
      LearnValue(spells, targets[0], visiting);
      LearnAllValue(spells, targets[1..], visiting);
      assert forall next :: next in targets <==> next == targets[0] || next in targets[1..];
    }
  }

  /** A failure names a reachable spell that is missing or lies on a cycle. */
  lemma {:induction false} FailureIsReal(spells: Spells, spell: int, visiting: set<int>)
    requires Learn(spells, spell, visiting).Fails?
    ensures match Learn(spells, spell, visiting).why
      case Missing(other) => Reaches(spells, spell, other) && other !in spells
      case Cyclic(other) => Reaches(spells, spell, other) && (other in visiting || OnCycle(spells, other))
    decreases spells.Keys - visiting, 1, 0
  {
    ReachStep(spells, spell, spell);
    if spell !in visiting && spell in spells {
      assert spell in spells.Keys - visiting && spell !in spells.Keys - (visiting + {spell});
      var next := FailureIsBelow(spells, Taught(spells, spell), visiting + {spell});
      forall other | Reaches(spells, next, other) {
        ReachStep(spells, spell, other);
      }
    }
  }

  lemma {:induction false} FailureIsBelow(spells: Spells, targets: seq<int>, visiting: set<int>) returns (next: int)
    requires LearnAll(spells, targets, visiting).Fails?
    ensures next in targets
    ensures match LearnAll(spells, targets, visiting).why
      case Missing(other) => Reaches(spells, next, other) && other !in spells
      case Cyclic(other) => Reaches(spells, next, other) && (other in visiting || OnCycle(spells, other))
    decreases spells.Keys - visiting, 2, |targets|
  {
    next := targets[0];
    if Learn(spells, next, visiting).Fails? {
      FailureIsReal(spells, next, visiting);
    } else {
      next := FailureIsBelow(spells, targets[1..], visiting);
    }
  }

  // ----- the spells each class can learn

  datatype Trainer = Trainer(entry: int, template: int, classId: int)
  datatype Ability = Ability(skill: int, spell: int, mask: int, learn: int)

  /** What the trainers and abilities of the database offer. */
  datatype Offers = Offers(
    trainers: seq<Trainer>, direct: map<int, set<int>>, templates: map<int, set<int>>, abilities: seq<Ability>)

  datatype Outcome = Trainable(spells: map<int, set<int>>) | Refused(why: Failure)

  function Lookup(m: map<int, set<int>>, key: int): set<int> {
    if key in m then m[key] else {}
  }

  /** The bit of the class in a class mask; a mask of zero admits every class. */
  predicate Admits(mask: int, classId: int)
    requires classId >= 1
  {
    mask == 0 || (mask / Octets.Pow2(classId - 1)) % 2 == 1
  }

  predicate TrainerOffers(offers: Offers, i: nat, classId: int, spell: int)
    requires i < |offers.trainers|
  {
    var trainer := offers.trainers[i];
    trainer.classId == classId && spell in Lookup(offers.direct, trainer.entry) + Lookup(offers.templates, trainer.template)
  }

  predicate AbilityOffers(classes: map<int, set<int>>, offers: Offers, i: nat, classId: int, spell: int)
    requires i < |offers.abilities| && classId in classes && classId >= 1
  {
    var ability := offers.abilities[i];
    ability.spell == spell && ability.learn in {1, 2} && ability.skill in classes[classId] && Admits(ability.mask, classId)
  }

  /** Offered by one of the first t trainers or the first a abilities. */
  ghost predicate OfferedSoFar(classes: map<int, set<int>>, offers: Offers, t: nat, a: nat, classId: int, spell: int)
    requires forall c | c in classes :: c >= 1
    requires t <= |offers.trainers| && a <= |offers.abilities|
  {
    && classId in classes
    && (|| (exists i: nat | i < t :: TrainerOffers(offers, i, classId, spell))
        || (exists i: nat | i < a :: AbilityOffers(classes, offers, i, classId, spell)))
  }

  ghost predicate Offered(classes: map<int, set<int>>, offers: Offers, classId: int, spell: int)
    requires forall c | c in classes :: c >= 1
  {
    OfferedSoFar(classes, offers, |offers.trainers|, |offers.abilities|, classId, spell)
  }

  /** The sets hold exactly what the offers handled so far teach. */
  ghost predicate Gathered(spells: Spells, classes: map<int, set<int>>, sets: map<int, set<int>>, handled: set<(int, int)>) {
    && sets.Keys == classes.Keys
    && (forall offer | offer in handled :: offer.0 in classes && Learn(spells, offer.1, {}).Learned?)
    && (forall c, spell :: c in sets && spell in sets[c]
          <==> exists root :: (c, root) in handled && spell in Learn(spells, root, {}).spells)
  }

  lemma GatherOne(spells: Spells, classes: map<int, set<int>>, sets: map<int, set<int>>, handled: set<(int, int)>, c: int, root: int)
    requires Gathered(spells, classes, sets, handled) && c in classes && Learn(spells, root, {}).Learned?
    ensures Gathered(spells, classes, sets[c := sets[c] + Learn(spells, root, {}).spells], handled + {(c, root)})
  {
    var after, now := sets[c := sets[c] + Learn(spells, root, {}).spells], handled + {(c, root)};
    forall d, spell
      ensures d in after && spell in after[d] <==> exists r :: (d, r) in now && spell in Learn(spells, r, {}).spells
    {
      if d in after && spell in after[d] {
        if d == c && spell in Learn(spells, root, {}).spells {
          assert (d, root) in now;
        } else {
          var r :| (d, r) in handled && spell in Learn(spells, r, {}).spells;
          assert (d, r) in now;
        }
      }
    }
  }

  /** The spell teaches nothing and is reached from something offered to the class. */
  ghost predicate LearnsFrom(spells: Spells, classes: map<int, set<int>>, offers: Offers, classId: int, spell: int)
    requires forall c | c in classes :: c >= 1
  {
    Final(spells, spell) && exists root :: Offered(classes, offers, classId, root) && Reaches(spells, root, spell)
  }

  /** What gathering every offer means for the reader of the result. */
  lemma GatheredIsClosure(spells: Spells, classes: map<int, set<int>>, offers: Offers, sets: map<int, set<int>>, handled: set<(int, int)>)
    requires forall c | c in classes :: c >= 1
    requires Gathered(spells, classes, sets, handled)
    requires forall c, root :: (c, root) in handled <==> Offered(classes, offers, c, root)
    ensures forall c, root | Offered(classes, offers, c, root) :: Sound(spells, root)
    ensures forall c, spell | c in sets :: (spell in sets[c] <==> LearnsFrom(spells, classes, offers, c, spell))
  {
    forall c, root | (c, root) in handled ensures Sound(spells, root) {
      LearnSucceeds(spells, root);
    }
    forall c, spell | c in sets ensures spell in sets[c] <==> LearnsFrom(spells, classes, offers, c, spell) {
      forall root | (c, root) in handled { LearnValue(spells, root, {}); }
      if spell in sets[c] {
        var root :| (c, root) in handled && spell in Learn(spells, root, {}).spells;
        assert Offered(classes, offers, c, root);
      }
    }
  }

  lemma OneMoreTrainer(classes: map<int, set<int>>, offers: Offers, t: nat)
    requires forall c | c in classes :: c >= 1
    requires t < |offers.trainers|
    ensures forall c, root :: (OfferedSoFar(classes, offers, t + 1, 0, c, root)
      <==> OfferedSoFar(classes, offers, t, 0, c, root) || (c in classes && TrainerOffers(offers, t, c, root)))
  {
  }

  lemma NonEmpty(s: set<int>)
    ensures |s| > 0 ==> exists x :: x in s
  {
    assert (forall x :: x !in s) ==> s == {};
  }

  /** The spells one trainer offers, learned for its class. */
  method LearnEach(spells: Spells, classes: map<int, set<int>>, sets: map<int, set<int>>, c: int, roots: set<int>,
                   ghost handled: set<(int, int)>)
    returns (failure: seq<Failure>, after: map<int, set<int>>, ghost now: set<(int, int)>)
    requires c in classes && Gathered(spells, classes, sets, handled)
    ensures failure == [] ==> Gathered(spells, classes, after, now)
    ensures failure == [] ==> forall d, root :: ((d, root) in now <==> (d, root) in handled || (d == c && root in roots))
    ensures failure != [] ==> exists root :: root in roots && Learn(spells, root, {}).Fails?
  {
    var pending := roots;
    failure, after, now := [], sets, handled;
    while |pending| > 0
      invariant pending <= roots
      invariant Gathered(spells, classes, after, now)
      invariant forall d, root :: ((d, root) in now <==> (d, root) in handled || (d == c && root in roots - pending))
    {
      NonEmpty(pending);
      var root :| root in pending;
      match Learn(spells, root, {}) {
        case Fails(why) =>
          return [why], after, now;
        case Learned(more) =>
          GatherOne(spells, classes, after, now, c, root);
          after := after[c := after[c] + more];
          now := now + {(c, root)};
          pending := pending - {root};
      }
    }
  }

  /** One ability, learned for every class whose skill lines and mask admit it. */
  method LearnForClasses(spells: Spells, classes: map<int, set<int>>, sets: map<int, set<int>>, offers: Offers, i: nat,
                         ghost handled: set<(int, int)>)
    returns (failure: seq<Failure>, after: map<int, set<int>>, ghost now: set<(int, int)>)
    requires (forall c | c in classes :: c >= 1) && i < |offers.abilities| && Gathered(spells, classes, sets, handled)
    ensures failure == [] ==> Gathered(spells, classes, after, now)
    ensures failure == [] ==> forall c, root :: ((c, root) in now
      <==> (c, root) in handled || (c in classes && AbilityOffers(classes, offers, i, c, root)))
    ensures failure != [] ==> exists c, root :: c in classes && AbilityOffers(classes, offers, i, c, root) && Learn(spells, root, {}).Fails?
  {
    var ability := offers.abilities[i];
    failure, after, now := [], sets, handled;
    if ability.learn !in {1, 2} {
      return;
    }
    var pending := classes.Keys;
    while |pending| > 0
      invariant pending <= classes.Keys
      invariant Gathered(spells, classes, after, now)
      invariant forall c, root :: ((c, root) in now
        <==> (c, root) in handled || (c in classes.Keys - pending && AbilityOffers(classes, offers, i, c, root)))
    {
      NonEmpty(pending);
      var c :| c in pending;
      if ability.skill in classes[c] && Admits(ability.mask, c) {
        assert AbilityOffers(classes, offers, i, c, ability.spell);
        match Learn(spells, ability.spell, {}) {
          case Fails(why) =>
            return [why], after, now;
          case Learned(more) =>
            GatherOne(spells, classes, after, now, c, ability.spell);
            after := after[c := after[c] + more];
            now := now + {(c, ability.spell)};
        }
      }
      pending := pending - {c};
    }
  }

  /** Every class gets the closure of what is offered to it, or the first failure ends the whole run. */
  method Counts(spells: Spells, classes: map<int, set<int>>, offers: Offers) returns (r: Outcome)
    requires forall c | c in classes :: c >= 1
    ensures r.Trainable? <==> forall c, root | Offered(classes, offers, c, root) :: Sound(spells, root)
    ensures r.Trainable? ==> r.spells.Keys == classes.Keys
    ensures r.Trainable? ==>
              forall c, spell | c in classes :: (spell in r.spells[c] <==> LearnsFrom(spells, classes, offers, c, spell))
  {
    var sets := map c | c in classes :: {};
    ghost var handled: set<(int, int)> := {};
    for i := 0 to |offers.trainers|
      invariant Gathered(spells, classes, sets, handled)
      invariant forall c, root :: ((c, root) in handled <==> OfferedSoFar(classes, offers, i, 0, c, root))
    {
      var trainer := offers.trainers[i];
      OneMoreTrainer(classes, offers, i);
      if trainer.classId in classes {
        var roots := Lookup(offers.direct, trainer.entry) + Lookup(offers.templates, trainer.template);
        var failure;
        failure, sets, handled := LearnEach(spells, classes, sets, trainer.classId, roots, handled);
        if failure != [] {
          ghost var root :| root in roots && Learn(spells, root, {}).Fails?;
          LearnSucceeds(spells, root);
          assert TrainerOffers(offers, i, trainer.classId, root);
          assert Offered(classes, offers, trainer.classId, root);
          return Refused(failure[0]);
        }
      }
    }
    for i := 0 to |offers.abilities|
      invariant Gathered(spells, classes, sets, handled)
      invariant forall c, root :: ((c, root) in handled <==> OfferedSoFar(classes, offers, |offers.trainers|, i, c, root))
    {
      var failure;
      failure, sets, handled := LearnForClasses(spells, classes, sets, offers, i, handled);
      if failure != [] {
        ghost var c, root :| c in classes && AbilityOffers(classes, offers, i, c, root) && Learn(spells, root, {}).Fails?;
        LearnSucceeds(spells, root);
        assert Offered(classes, offers, c, root);
        return Refused(failure[0]);
      }
    }
    GatheredIsClosure(spells, classes, offers, sets, handled);
    r := Trainable(sets);
  }
}
