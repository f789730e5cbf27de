# Pensiero: a verified model

Pensiero reasons over a knowledge graph. This project models its four hard parts in Dafny, proves what each promises,
and states exactly where a promise stops holding.

1. **Taxonomy and lifting** (`Graphs`, `Components`, `Levels`, `Hierarchy`, `Parents`, `Lifting`, `LiftingRun`,
   `LiftingLaws`, `Search`, `Orientation`, `Names`, `SignalsExample`, `RelationDirection`). The stored hierarchy may be cyclic. Tarjan's algorithm finds its
   strongly connected components, a worklist assigns capped longest-walk levels to them, edges that climb are emitted,
   and relations are lifted level by level onto parents. Before that, stored edges are turned the way an ontology, the
   names or the entity types say.
2. **The conditional chainer** (`Rules`, `Proofs`, `Answers`, `Budgets`, `Chainer`, `WorkExample`, `GuardExact`,
   `GuardExample`, `Firing`). A backward-chaining rule interpreter with unification, values offered by an oracle, exceptions, a loop guard, a depth cap and work budgets; and the forward
   firing of rules.
3. **Predicate algebra** (`Registry`, `Entailment`, `NearestFirst`, `Reflexivity`, `Native`, `OneWay`,
   `AcceptedCodec`, `PathJudgement`). Sub-property closure on
   hierarchies with cycles, the predicate that a proof path establishes, claims asked in the inverse direction, and the
   list of accepted predicates printed in Go and parsed in C++.
4. **The serving layer** (`GenerationStore`, `GenerationObjects`, `LruCache`, `ProofCache`, `CacheProgress`,
   `CacheObjects`, `HandlePool`, `PoolObjects`). Reference-counted generations, a single-flight cache and a pool of handles. Each
   critical section and channel operation is one step of a state machine whose steps interleave freely; the classes
   beside the machines take those steps, one method each.

`Claims`, `Options`, `Powers`, `Sets`, `Texts` and `Iteration` hold what several of them share.

Code that computes step by step is modelled by methods with loops and by classes; their contracts tie them to
specifications that do not follow the code: reachability, longest walks, least sets, derivations, interpretations,
runs. Confidences are real numbers; the base reasoner, the oracle, the graph engine and every computation are
parameters; the order in which a Go map is iterated is left open. A call that may be cancelled or fail returns an
`Outcome`.

## What the proofs found

- Levels are exact precisely up to the cap `maxLevel + 1` (`Levels.ExactBelowCap`). Beyond it the result may depend on the
  order in which a map is iterated: `Levels.AboveTheCapOrderDecides` follows the worklist on one graph in two orders, and one of them
  gives a node a level that would let it be emitted.
- The chainer's loop guard lower-cases entity names, as the matching of rules does. It loses no answer, whatever rules of
  the fragment are loaded, if and only if base and oracle treat alike the claims that differ only in that
  (`GuardExact.GuardHarmlessIff`), whether or not rule identifiers are distinct. Otherwise it can: four rules tell any
  two such claims apart, and `GuardExample.GuardCanLose` gives a concrete base with two rules and one fact.
- With work left at the end the chainer's answer is exact, exceptions, negated conditions and offered values included: a
  claim that the base leaves open is entailed if and only if some rule unifies with it whose conditions, each time the
  first with the fewest free ends, lead to bindings under which no exception stops the rule (`Answers.EntailedIff`). A
  search that is not capped is not enough for that: when the last of the work is used up, values that were offered are
  passed over without a trace (`WorkExample.LosesValue`).
- The search of the fragment ends by itself if the limits leave room: there are no more keys for the guard than rules
  times pairs of names (`Budgets.KeysBound`), a greater depth limit is never reached, and a bound on the work follows from
  the rules (`Budgets.Work`). With such limits, which exist for every claim (`Budgets.SomeLimitsSuffice`), and nothing
  failing, the chainer answers entailed exactly if the claim can be derived (`Chainer.ConditionalReasoner.Entails`).
- `IsReflexive` follows super-properties as they are spelled in a declaration while the rest of the reasoner
  canonicalizes them, so a super-property declared by an alias passes on nothing (`Reflexivity.AliasLosesReflexivity`).
  The two agree for a registry exactly if every such alias is harmless (`Reflexivity.AgreesIffAliasesHarmless`), and for
  a hierarchy, whatever is declared reflexive, exactly if every declared predicate above another is also reached along
  canonical spellings (`Reflexivity.AgreesForAllFlagsIff`).
- Asking a claim the other way round needs inverses to be converses. The one-way reading in the comments of
  `pkg/reasoning/predicates.go` is not enough (`OneWay.OneWayInverseCanMislead`). With it, what is recovered is right
  exactly if the registry's rules force the predicate from its inverse alone (`OneWay.RecoveryRightIff`); without
  compositions, exactly if the turned predicate is reached from the inverse along edges that keep the direction, for
  super-properties, or turn it, for declared inverses (`OneWay.RecoveryRightIffReached`). `OneWay.AskTheOtherWay` asks the
  reasoner where that fails, and is answered entailed.
- A path that establishes the claimed predicate can be rejected, because it is judged by the first transitive predicate
  found above its steps, which the order of declarations decides (`PathJudgement.FirstCandidateDecides`). And the path that
  the engine's guard returns is accepted by the reasoner exactly if it is one step or that first predicate implies the one
  claimed (`PathJudgement.BestPathIsJudged`).
- With the ontology alone, kept taxonomy rows are free of cycles for every input exactly if no two terms are ancestors
  of each other (`Orientation.KeptAcyclicIff`). Each signal alone gives no cycle in an acyclic ontology, but both
  together can, for pain, chest pain and acute chest pain (`SignalsExample.SignalsTogetherCanCycle`). Whatever the signals, the rows over some names never form a cycle
  exactly if the graph of all decisions on those names, which can be computed beforehand, has none
  (`Orientation.KeptAcyclicIffDecisionsAre`).
- The check for a pair stored the wrong way round compares a trimmed name with one as given; it is right exactly if the
  second name has no surrounding space, or is not the parent, or the pair is stored both ways or neither
  (`Orientation.BackwardsIff`).
- A request that meets failing calls may retry for as long as others keep arriving; once no more arrive, every
  interleaving is short and all requests end (`CacheProgress.EveryoneEnds`).
- `sync.Once` in the closing of a generation is not needed: closing is decided once (`GenerationStore.SafeThroughout`).

## Model

| member | source | states |
|---|---|---|
| Components.TarjanSearch.Run | pkg/generalization/queries.go:490-565 | numbers every node once; two nodes share a number exactly if each reaches the other; an edge between components goes to a lower number |
| Components.TarjanSearch.StrongConnect | pkg/generalization/queries.go:501-555 | keeps the search invariant at any depth of recursion and explores everything reachable from the node that was not visited |
| Components.TarjanSearch.PopComponent | pkg/generalization/queries.go:536-553 | at a root, moves exactly the part of the stack from the node up into one new component |
| Components.ComponentsOf | pkg/generalization/queries.go:490-565 | the components for any graph and any order of the keys are a condensation |
| Components.CrossEdgesDescend | pkg/generalization/queries.go:490-565 | whatever a node reaches has a number that is not higher, and the same number exactly if it reaches back |
| Levels.AssignLevels | pkg/generalization/queries.go:437-476 | terminates for every order of the worklist; each level is the length of some walk from the scope, and is the longest walk wherever that is within the cap |
| Levels.OfferParents | pkg/generalization/queries.go:456-474 | one turn of the worklist is one turn of the abstract one, for every order of the parents |
| Levels.ExactBelowCap | pkg/generalization/queries.go:410-488 | an assigned level is the longest walk if and only if no walk to the component is longer than the cap |
| Levels.AboveTheCapOrderDecides | pkg/generalization/queries.go:437-476 | two orders of the same scope leave a component at different levels, neither of them its longest walk |
| Hierarchy.SightingsCommute | pkg/generalization/queries.go:374-398 | the stored confidences do not depend on the order in which edges are seen |
| Hierarchy.GreatestIsKept | pkg/generalization/queries.go:374-398 | after any sightings exactly the edges sighted are stored, each with the greatest confidence it was sighted with |
| Hierarchy.TaxonomyHierarchy.AddEdge | pkg/generalization/queries.go:374-398 | exactly the edge seen is added; a repeated edge keeps the greatest confidence, one that is not positive counting as 1; a new one extends the parent lists without repetition |
| Hierarchy.Condense | pkg/generalization/queries.go:416-431 | the condensed graph has exactly the edges between different components |
| Hierarchy.TaxonomyHierarchy.Levels | pkg/generalization/queries.go:410-488 | all nodes of a component get one level or none, above the cap too; levels are walk lengths, and exact below the cap |
| Hierarchy.TaxonomyHierarchy.Rows | pkg/generalization/queries.go:567-600 | a row for exactly the edges that leave their component and climb to a level from 1 to the cap, each once |
| Hierarchy.TaxonomyHierarchy.EmittedRows | pkg/generalization/queries.go:100-114 | for any stored graph the emitted rows have no cycle; depths lie in 1..maxLevel, are lengths of walks, and the longest if no walk exceeds maxLevel + 1; every edge that must be emitted is, at the parent's longest walk |
| Hierarchy.KeptRowsAcyclic | pkg/generalization/queries.go:567-600 | rows that climb in level form no cycle |
| Hierarchy.KeptRowsExact | pkg/generalization/queries.go:567-600 | for a parent within the cap an edge is kept if and only if it leaves its component and its child is reached, and then at the parent's longest walk |
| Hierarchy.WalksAreBounded | pkg/generalization/queries.go:410-488 | no walk on the condensation is longer than the highest component number, so some cap makes every level exact |
| Parents.KeptSetIsLeast | pkg/generalization/builder.go:244-319 | the kept set contains the sufficiently supported parents, is closed downward to children that are parents, and is the least such set |
| Parents.CloseDown | pkg/generalization/builder.go:275-300 | the worklist computes the kept set |
| Parents.SelectParents | pkg/generalization/builder.go:244-336 | the parents kept are the kept set with their children and greatest depths, and the parents listed for each child are exactly the kept ones, each once |
| LiftingRun.FillBuckets | pkg/generalization/builder.go:364-396 | for every order of the children the buckets hold, for each parent and fact, the supporters, their sources, and the sum and number of their confidences |
| LiftingRun.EmitLevel | pkg/generalization/builder.go:397-453 | a level emits exactly the facts that reach enough support and were not emitted before, and hands on what the next level needs |
| LiftingRun.LiftRelations | pkg/generalization/builder.go:338-455 | a relation for a parent and a fact is emitted exactly if at some level up to the cap enough distinct children carry the fact one level down; it has the support, sources and confidence of the first such level; and there is one for each |
| Lifting.ConfidenceInUnit | pkg/generalization/builder.go:381-453 | if no direct confidence exceeds 1, every lifted confidence at every level lies in (0, 1] |
| Lifting.ConfidencePositive | pkg/generalization/builder.go:381-449 | every lifted confidence is positive, whatever the direct ones are |
| LiftingLaws.LiftedInProportion | pkg/generalization/builder.go:338-455 | every relation emitted has the confidence that the law of proportion fixes: times the number of inputs and the number of the parent's children it is the sum of the input confidences times the support; a row below states its fact, and its sources are exactly the rows cited below |
| LiftingLaws.FirstLevelLaw | pkg/generalization/builder.go:364-449 | that law at level 1, over the direct rows of the children |
| LiftingLaws.BalancedIsConfidence | pkg/generalization/builder.go:414-422 | the lifted confidences are the only ones that obey the law at every level |
| LiftingLaws.ConfidenceIsBalanced | pkg/generalization/builder.go:364-449 | the lifted confidences obey, at every level, the law that ties confidence, number of inputs, children, sum and support |
| LiftingLaws.ConfidenceBelowShare | pkg/generalization/builder.go:414-422 | if no direct confidence exceeds 1, confidence times number of children is at most the support, and equal to it exactly if every input is certain |
| LiftingLaws.CarriesIff | pkg/generalization/builder.go:381-453 | a fact is had at a level exactly if some descendant that many steps down along kept parents has a direct row for it |
| LiftingLaws.SourcesIff | pkg/generalization/builder.go:381-453 | and its sources are exactly those rows |
| Orientation.Ontology.Commit | pkg/taxonomy/obo.go:104-122 | a name that is taken keeps its term, an obsolete stanza changes nothing, and the parents of a term only grow |
| Orientation.Ontology.IsAncestor | pkg/taxonomy/obo.go:204-223 | true exactly for another term that is reachable along parents, also on cyclic files |
| Orientation.Deriver.DeriveOntology | pkg/taxonomy/direction.go:130-150 | undetermined exactly if neither term is above the other; otherwise the parent is above the child |
| Orientation.Deriver.Derive | pkg/taxonomy/direction.go:90-128 | the ontology decides if it relates the terms, and otherwise the names if they are asked; undetermined exactly if neither can; says exactly when the stored direction is reported contradicted and when the signals disagree |
| Orientation.BackwardsIff | pkg/taxonomy/direction.go:120-126 | the comparison in the code reports a pair stored only from child to parent exactly if the second name is trimmed, or is not the parent, or both edges or neither are stored |
| Orientation.ProperSubset | pkg/taxonomy/direction.go:200-210 | true exactly for a strict subset |
| Orientation.OrderMattersOnCycles | pkg/taxonomy/direction.go:90-150 | swapping the two names changes the answer if and only if each is an ancestor of the other |
| Orientation.AcyclicHasNoMutual | pkg/taxonomy/obo.go:204-223 | in an acyclic ontology no two terms are ancestors of each other, so the order of the two names does not matter |
| Orientation.ApplyDirection | pkg/generalization/direction.go:32-58 | every row is dropped if it cannot be oriented and otherwise kept, turned if stored the wrong way round; kept and dropped rows add up to the input, and flipped is the number of those turned |
| Orientation.KeptGoUp | pkg/generalization/direction.go:32-58 | with the lexical signal off every kept row goes strictly up the ontology |
| Orientation.KeptAcyclicIff | pkg/generalization/direction.go:32-58 | the kept rows of every input are free of cycles if and only if no two different terms are ancestors of each other |
| Orientation.NamesAloneAcyclic | pkg/taxonomy/direction.go:159-171 | without an ontology the kept rows are free of cycles |
| Names.NameTokens | pkg/taxonomy/direction.go:174-198 | the words of more than one letter or digit of a name in lower case |
| Names.TokensAre | pkg/taxonomy/direction.go:174-198 | the tokens of a name are exactly its longest stretches of letters and digits, in lower case, that have more than one character |
| Names.SameNameIff | pkg/taxonomy/obo.go:172-178 | names are normalized alike exactly if they have the same words between white space, case aside |
| Names.NamesAreANaming | pkg/taxonomy/obo.go:172-178 | trimming, normalizing and splitting, as the code does them, are idempotent and compatible in the ways the model of orientation assumes |
| Texts.TrimMeans | pkg/taxonomy/obo.go:172-178 | trimming takes off white space at both ends, and nothing else |
| Names.WordsOfJoined | pkg/taxonomy/obo.go:176-178 | joining the words of a name by spaces changes neither its words nor its tokens |
| SignalsExample.SignalsTogetherCanCycle | pkg/taxonomy/direction.go:90-198 | with an acyclic ontology and the lexical signal on, and the code's own names and tokens, three rows over any three different words are kept that form a cycle |
| Orientation.KeptAcyclicIffDecisionsAre | pkg/generalization/direction.go:32-58 | with any signals, the kept rows of every input over some names are free of cycles if and only if the graph of all decisions on those names is |
| RelationDirection.ApplyRelationDirection | pkg/generalization/direction.go:93-129 | every row is read by the inverse exactly if the types of its ends do not suit its predicate and do suit the inverse; those turned are counted |
| RelationDirection.FlippedIsTrue | pkg/generalization/direction.go:93-110 | a turned relation was false as stored and is true as turned, if it was true in some direction and types are respected |
| RelationDirection.FlippingSettles | pkg/generalization/direction.go:93-110 | normalizing twice is normalizing once, if inverses declare each other's types |
| Rules.GuardLosesNothing | pkg/reasoning/conditional.go:405-415 | a claim that can be derived can be derived by a rule whose conditions do not come back to it |
| Rules.DerivesGuarded | pkg/reasoning/conditional.go:405-415 | what is derivable has a derivation that the loop guard allows, no higher |
| Rules.FollowsIffDerives | pkg/reasoning/conditional.go:225-279 | in the fragment, following within n rule layers and having a derivation of height n are the same |
| Rules.Transport | pkg/reasoning/conditional.go:693-700 | claims that look the same to the guard hold alike, if base and oracle treat them alike |
| Rules.UnifiesIff | pkg/reasoning/conditional.go:716-747 | a consequent unifies with exactly the claims its terms stand for, a repeated variable for one entity twice, and binds exactly its variables |
| Rules.UnifiedIsClaimed | pkg/reasoning/conditional.go:716-780 | unified with a claim it is grounded to that claim again, up to names of the same entity |
| Answers.EntailedIff | pkg/reasoning/conditional.go:225-279 | a claim is answered entailed exactly if the base entails it, or leaves it open and some rule unifies with it whose conditions lead to bindings that no exception stops; then with the confidence of the best proof; a contradiction by the base is passed on |
| Answers.BranchesIff | pkg/reasoning/conditional.go:440-543 | the branches have exactly the bindings to which the conditions lead, taking each time the first with the fewest free ends, as it stands or with one of the first MaxBindings values offered |
| Answers.BestIff | pkg/reasoning/conditional.go:423-438 | the best proof is by a branch that no exception stops, and no other is more confident; there is none exactly if all branches are stopped |
| Chainer.ConditionalReasoner.Entails | pkg/reasoning/conditional.go:213-223 | the search ends; with work left the answer is exactly the one that Answers.EntailedIff describes; a contradiction by the base is returned; an entailed claim follows within MaxRuleDepth rule layers and, if the base leaves it open, by a rule none of whose exceptions must veto; in the fragment a positive answer is true and an uncapped negative one too; if base and oracle treat alike what the guard does not tell apart, an uncapped answer is entailed exactly if the claim follows at all; in the fragment no limit is hit if the limits suffice, and work is left if they are greater |
| Chainer.ConditionalReasoner.EntailsIn | pkg/reasoning/conditional.go:225-239 | the same inside a search, for the depth that is left and the claims being tried; keeps budgets, depth and guard; capped only if a budget or the depth is used up; costs no more than the work allowed for the keys that are left |
| Chainer.ConditionalReasoner.ByRules | pkg/reasoning/conditional.go:241-279 | entailed or unsupported; proofs are ranked, best first, and prove the claim; exact in the fragment unless a limit was hit, and the cost is bounded |
| Chainer.ConditionalReasoner.TryAll | pkg/reasoning/conditional.go:250-264 | the candidates are tried in turn; exact as long as work is left; in the fragment a proof is found exactly if one of them works, unless a limit was hit, at no more than the cost of them all |
| Chainer.ConditionalReasoner.TryRule | pkg/reasoning/conditional.go:395-438 | leaves depth and guard as they were on every exit; gives a proof exactly if the rule works, unless capped; costs no more than its conditions with one key less |
| Chainer.ConditionalReasoner.BestProof | pkg/reasoning/conditional.go:423-438 | a proof comes from a branch under which no exception must veto, and without one every branch has an exception that vetoes; with work left it is the one of Answers.BestIff; without exceptions it is the most confident of all branches |
| Chainer.ConditionalReasoner.EvalConditions | pkg/reasoning/conditional.go:440-471 | every branch satisfies all conditions, only adds bindings, and has one more piece of evidence for each condition as grounded; with work left the branches are exactly those of Answers.BranchesIff, values offered for free ends included; with nothing to search for, there is one exactly if all conditions can hold, unless capped, and the cost is that of as many conditions |
| Budgets.KeysBound | pkg/reasoning/conditional.go:693-700 | the guard can remember no more keys than rules times pairs of names |
| Budgets.ConditionsInScope | pkg/reasoning/conditional.go:395-438 | a rule of the fragment asks about nothing but its constants and the names in the claim |
| Budgets.SomeLimitsSuffice | pkg/reasoning/conditional.go:653-691 | for every claim there are limits, computed from rules and names, that are enough, and all greater ones are |
| Chainer.TakesKey | pkg/reasoning/conditional.go:405-415 | trying a rule takes up one of the keys left, and its conditions stay among the names expected |
| Chainer.ConditionalReasoner.EvalCondition | pkg/reasoning/conditional.go:473-543 | every branch satisfies the condition whatever values the oracle offers; with work left there is one for each of the first MaxBindings values offered that is not blank and with which the condition holds |
| WorkExample.LosesValue | pkg/reasoning/conditional.go:513-541 | of two values with which the condition holds a search whose work is used up finds one, and is not capped |
| Chainer.ConditionalReasoner.Holds | pkg/reasoning/conditional.go:575-592 | what holds follows or is the oracle's word, with the confidence of whichever answered first |
| Chainer.ConditionalReasoner.ExceptionVeto | pkg/reasoning/conditional.go:594-615 | a veto comes from a bound exception that is negated and unknown, or holds with at least the threshold's confidence; without a veto every bound exception that could not fail to veto is ruled out |
| Chainer.ConditionalState.ConsumeWork | pkg/reasoning/conditional.go:677-687 | the work budget is never exceeded, and a refusal is remembered |
| Chainer.ConditionalState.ConsiderRule | pkg/reasoning/conditional.go:668-675 | the rule budget is never exceeded, and a refusal is remembered |
| Chainer.ChooseCondition | pkg/reasoning/conditional.go:782-807 | the first condition with the fewest free ends |
| Proofs.SortProofs | pkg/reasoning/conditional.go:268-270 | the same proofs as often as before, in descending confidence, equally confident ones in their old order |
| Proofs.InsertIsStable | pkg/reasoning/conditional.go:268-270 | inserting a proof keeps the order of equally confident ones and puts the new one last of them |
| Proofs.NeverMoreCertain | pkg/reasoning/conditional.go:617-651 | a conclusion is never more certain than its rule or any piece of the evidence for it |
| Proofs.StepsInOrder | pkg/reasoning/conditional.go:617-633 | the steps of a proof are those of the evidence in order |
| Proofs.Compose | pkg/reasoning/conditional.go:617-651 | composes the specified proof: the steps of the evidence and the rule, and their confidence |
| Proofs.ConfidenceOfProof | pkg/reasoning/conditional.go:617-651 | the confidence of a conclusion is that of the rule times that of all the evidence, decayed once for each step |
| Proofs.ProductOfBoth | pkg/reasoning/conditional.go:619-625 | the evidence of two parts together is worth the product of what they are worth |
| Proofs.OnlyDecayIsLost | pkg/reasoning/conditional.go:617-651 | certain evidence for a certain rule loses nothing but the decay, and worthless evidence proves nothing |
| Chainer.SomeRuleWorks | pkg/reasoning/conditional.go:241-279 | a claim the base leaves open can be derived exactly if some candidate rule works |
| Chainer.WorksIffConditionsHold | pkg/reasoning/conditional.go:395-438 | a rule of the fragment that unifies works exactly if all its conditions can hold |
| Chainer.GuardIsHarmless | pkg/reasoning/conditional.go:395-415 | in the fragment, if base and oracle treat alike the claims that the guard does not tell apart, the guarded search can find exactly the claims that follow |
| GuardExact.GuardHarmlessIff | pkg/reasoning/conditional.go:395-415 | given two predicates that base and oracle know nothing of, the guard loses no claim for any rules of the fragment if and only if base and oracle treat alike what it does not tell apart |
| GuardExact.ToldApartLoses | pkg/reasoning/conditional.go:693-700 | whenever base or oracle tells two such claims apart there are rules with which a claim that follows is not found |
| GuardExample.GuardCanLose | pkg/reasoning/conditional.go:693-700 | a claim that follows but that no guarded search finds, because the base tells names apart that the guard does not |
| Firing.CompileRules | pkg/reasoning/conditional.go:109-142 | keeps the usable rules, counts the others, and indexes exactly by predicate concluded and by entity mentioned |
| Firing.IndexFindsRules | pkg/reasoning/conditional.go:92-104 | the rules found through the index are those that conclude the predicate, in order |
| Firing.ForwardCandidates | pkg/reasoning/conditional.go:361-383 | exactly the rules that mention an entity of an assumed fact, each once |
| Firing.FireRule | pkg/reasoning/conditional.go:298-357 | a fired claim is concluded by the rule from satisfied conditions under bindings for which no exception must veto; with work left the rule fires exactly if Firing.FiresIff says so; a rule with nothing left to search for and no exceptions fires exactly if all its conditions can hold, unless a limit was hit, which does not happen if the limits suffice |
| Firing.FireRules | pkg/reasoning/conditional.go:298-357 | every fired claim is concluded by its rule from conditions that are satisfied; no rule identifier fires twice; the limit is kept; a run comes to its end unless something fails; and then every touched rule that can fire, by values offered and past its exceptions too, has fired or the limit is reached, if work was left or the rule is ready and the limits suffice or were not hit |
| Firing.FiresIff | pkg/reasoning/conditional.go:298-357 | a rule fires exactly if its conditions lead to bindings that no exception stops and that leave nothing of the consequent open, and concludes the consequent under such bindings |
| Registry.NewRegistry | pkg/reasoning/predicates.go:66-89 | of several declarations of a name the last decides |
| Registry.LastDeclarationDecides | pkg/reasoning/predicates.go:66-103 | a name that no declaration uses is its own canonical name; otherwise the last one that does gives it, and its raw one if that leaves the canonical out |
| Registry.UnshadowedIsSettled | pkg/reasoning/predicates.go:70-103 | if no alias is spelled like another canonical name, canonicalizing twice is canonicalizing once |
| Entailment.PredicateEntails | pkg/reasoning/predicate_entailment.go:124-152 | exactly the reflexive and transitive closure of the canonical sub-property edges, cycles included |
| Entailment.TransitiveSuperProperties | pkg/reasoning/predicate_entailment.go:80-107 | exactly the transitive predicates above the given one, each once, in the order of a breadth-first search |
| NearestFirst.NearestIsFirst | pkg/reasoning/predicate_entailment.go:80-107 | predicates are found nearest first: none is found before one that is fewer steps up |
| Entailment.FilterInPlace | pkg/reasoning/predicate_entailment.go:63-68 | filtering in the candidates' own storage keeps exactly those in the set, in order |
| Entailment.CommonTransitiveSuperProperty | pkg/reasoning/predicate_entailment.go:49-78 | the first transitive predicate found above the first of them that is above all, or none exactly if there is none |
| Entailment.ComposePredicates | pkg/reasoning/predicate_entailment.go:109-119 | the result of the first declared composition of the two |
| Entailment.EffectivePredicate | pkg/reasoning/predicate_entailment.go:20-47 | the predicate by which a path is judged; one it establishes, or none exactly if it establishes none |
| NearestFirst.JudgedByNearest | pkg/reasoning/predicate_entailment.go:49-78 | a path that does not compose is judged by a common transitive predicate than which none is nearer to its first step |
| Entailment.EffectiveIsEstablished | pkg/reasoning/predicate_entailment.go:20-78 | the predicate by which a path is judged is one it establishes |
| Entailment.EstablishesMeans | pkg/reasoning/predicate_entailment.go:20-78 | in every interpretation that respects the registry, if each step is true the first entity is related to the last by the predicate established |
| Entailment.BelowIffMeans | pkg/reasoning/predicate_entailment.go:124-152 | implication in the hierarchy is exactly implication in every such interpretation |
| Entailment.ProofEntailsPredicate | pkg/reasoning/predicate_entailment.go:163-177 | true exactly if the effective predicate implies the target, or its declared inverse where that is asked for |
| Entailment.PredicatesEntailing | pkg/reasoning/predicate_entailment.go:182-208 | exactly the declared predicates that imply the target, and the target, each once |
| Reflexivity.ReflexiveCanonical | pkg/reasoning/predicates.go:170-189 | a failed search has seen only dead ends, and everything after them |
| Reflexivity.IsReflexive | pkg/reasoning/predicates.go:159-189 | true exactly if the predicate is declared and a reflexive one is reachable along super-properties as spelled |
| Reflexivity.AgreesIffAliasesHarmless | pkg/reasoning/predicates.go:159-189 | the answer is inheritance along the implications used elsewhere if and only if every super-property declared by an alias and leading to a reflexive one is passed on otherwise |
| Reflexivity.AgreesForAllFlagsIff | pkg/reasoning/predicates.go:159-189 | for a fixed hierarchy it is so whatever is declared reflexive if and only if every declared predicate above another is reached along canonical spellings |
| Reflexivity.CanonicalIsSpelledOut | pkg/reasoning/predicates.go:159-189 | which is the case if super-properties are declared by their canonical names |
| Reflexivity.AliasLosesReflexivity | pkg/reasoning/predicates.go:182-186 | a registry in which a super-property declared by an alias passes on nothing |
| Native.OrientingRepairs | pkg/reasoning/orientation.go:49-76 | a step whose predicate is replaced is true as now read and was false as stored, if the edge was true in some direction and types are respected |
| Native.OrientedIff | pkg/reasoning/orientation.go:49-79 | an edge is read by the declared inverse exactly if both declare types, those of the predicate do not suit the ends, and those of the inverse do |
| Native.ReadingSuits | pkg/reasoning/orientation.go:49-79 | if the types of the ends suit the predicate or its inverse, they suit the one by which the edge is read |
| Native.SingleEdgeAccepted | pkg/reasoning/native.go:183-206 | an answer that is one edge is accepted exactly if the predicate of the edge implies the one claimed, or, for an edge stored the wrong way round, if that of its inverse does |
| Native.NativeAcceptedPredicates | pkg/reasoning/native.go:211-251 | exactly the predicates that imply the claim's, each once, and none for an unknown predicate |
| Native.EntailsDirected | pkg/reasoning/native.go:142-209 | fails exactly if the engine does; otherwise entailed exactly if the engine's first row is, and its proof is judged by a predicate that implies the one claimed; the answer carries that proof and predicate; a first row that says entailed and is not accepted is no support, any other is passed on, and without enforcement every first row is |
| Native.Judge | pkg/reasoning/native.go:183-206 | an entailed row is accepted exactly if the predicate its oriented steps are judged by is among the accepted ones |
| Native.Entails | pkg/reasoning/native.go:84-120 | a contradiction is reported first, with the base's proof of it; an entailed answer supports the claim as stated or the inverse claim; and unless contradicted the answer is entailed if the engine's answer to either is accepted |
| Native.SupportedIsTrue | pkg/reasoning/native.go:142-209 | a supported claim is true in every interpretation that respects the registry and in which the engine's paths are true |
| Native.EntailedIsTrue | pkg/reasoning/native.go:84-138 | an entailed claim is true in its own direction, also after it was asked the other way round |
| OneWay.LeastIsOneWay | pkg/reasoning/predicates.go:24-36 | what one fact forces by super-properties, declared inverses, transitivity and compositions is itself an interpretation read one way |
| OneWay.RecoveryMeansIff | pkg/reasoning/native.go:125-138 | with inverses read one way, the inverse claim makes the claim true in every interpretation exactly if the registry's rules force it from the inverse alone |
| OneWay.RecoveryRightIff | pkg/reasoning/native.go:125-138 | claims recovered because the engine's answer to their inverse is accepted are true for every honest engine and interpretation if and only if that is so |
| OneWay.AskTheOtherWay | pkg/reasoning/native.go:84-138 | with one honest edge by the inverse the answer to the claim is entailed, and the claim is true in the least interpretation if and only if the rules force it |
| OneWay.RecoveryRightIffReached | pkg/reasoning/native.go:125-138 | without compositions, if and only if the turned predicate is reached from its inverse along super-properties and declared inverses |
| OneWay.InverseThereAndBack | pkg/reasoning/native.go:125-138 | in particular if the inverse declares an inverse that implies the predicate |
| OneWay.OneWayInverseCanMislead | pkg/reasoning/native.go:84-138 | a registry and an honest engine with one edge for which the reasoner's answer is entailed and the claim is false |
| AcceptedCodec.Encode | pkg/reasoning/native.go:266-280 | prints the specified text |
| AcceptedCodec.ParseAcceptedPredicates | extension/reasoning/src/function/entails.cpp:351-387 | the canonical names of the tokens between unescaped commas, for every text |
| AcceptedCodec.EncodedIsCut | pkg/reasoning/native.go:266-280 | the tokens of a printed list are the names printed, commas and backslashes included |
| AcceptedCodec.RoundTrip | extension/reasoning/src/function/entails.cpp:351-387 | parsing what was printed gives exactly the canonical names that are not blank |
| AcceptedCodec.EncodedIsInjective | pkg/reasoning/native.go:266-280 | different lists are printed differently, apart from no name and one blank name |
| AcceptedCodec.EffectivePredicate | extension/reasoning/src/function/entails.cpp:550-568 | a predicate exactly if every hop has that canonical predicate |
| AcceptedCodec.NormalizeIff | extension/reasoning/src/function/entails.cpp:326-336 | two names are normalized alike exactly if they are equally long and, character by character, equal up to ASCII case or both among space, hyphen and underscore |
| AcceptedCodec.AcceptableIff | extension/reasoning/src/function/entails.cpp:550-640 | a path is acceptable exactly if all its hops are such spellings of one accepted name |
| AcceptedCodec.ConfidenceLaws | extension/reasoning/src/function/entails.cpp:535-544 | each predicate more costs a fifth of a path's confidence and each hop after the first a tenth |
| AcceptedCodec.RunEntails | extension/reasoning/src/function/entails.cpp:591-645 | the first of the most confident acceptable paths, or none exactly if no path is acceptable; a path is acceptable exactly if all its hops are spellings of one accepted name, up to case, surrounding space, and the use of spaces, hyphens and underscores |
| PathJudgement.OneKindOfStep | pkg/reasoning/predicate_entailment.go:20-78 | a path of one predicate is judged by it if it is one step, and otherwise, unless it composes with itself, by the first transitive predicate above it |
| PathJudgement.BestPathIsJudged | pkg/reasoning/native.go:183-206 | the path that the engine's guard returns is accepted exactly if it is one step or the first transitive predicate above its own implies the one claimed |
| PathJudgement.FirstCandidateDecides | pkg/reasoning/predicate_entailment.go:49-78 | a path that establishes the claimed predicate and is judged by another, declared first |
| GenerationStore.SafeThroughout | cmd/pensiero/generation.go:66-210 | in every run no generation is closed while a reader holds it or the store retains it, and none is closed twice |
| GenerationStore.AllClosedOnce | cmd/pensiero/generation.go:149-210 | in every run, once the store is closed and nothing is held or pending, every generation has been closed exactly once, those rejected by a closed store included |
| GenerationStore.NeverBelowZero | cmd/pensiero/generation.go:185-190 | a pending release never finds the count at zero |
| GenerationStore.StepInv | cmd/pensiero/generation.go:66-210 | every step keeps the count of each reference equal to what store, readers and pending releases hold |
| GenerationStore.Drains | cmd/pensiero/generation.go:181-210 | handles given up, releases and closings can always go on until nothing is left, and they get there |
| GenerationObjects.Store.Acquire | cmd/pensiero/generation.go:66-86 | takes a handle on the current generation exactly if the store is open and has one |
| GenerationObjects.Store.Release | cmd/pensiero/generation.go:181-197 | one step of release; tells the caller to close exactly at the last reference |
| GenerationObjects.Store.Swap | cmd/pensiero/generation.go:107-132 | the new generation becomes current and the one before is kept; a closed store closes the new one instead |
| GenerationObjects.Store.Rollback | cmd/pensiero/generation.go:134-147 | current and kept generation change places, if there are both |
| GenerationObjects.Store.Close | cmd/pensiero/generation.go:149-179 | releases what was retained; if nobody held anything, every generation ever made is then closed exactly once |
| LruCache.KeptIsLongest | cmd/pensiero/cache.go:332-341 | what stays is a prefix of the list that fits both bounds, and no longer prefix does |
| LruCache.OversizedEmpties | cmd/pensiero/cache.go:332-341 | an entry that is too large by itself leaves the cache empty |
| LruCache.PrefixIsLatest | cmd/pensiero/cache.go:332-341 | every entry that stays was used after every entry that goes |
| LruCache.Cache.Lookup | cmd/pensiero/cache.go:240-246 | the entry found moves to the front; contents and size stay |
| LruCache.Cache.Insert | cmd/pensiero/cache.go:313-342 | list and map keep the same distinct keys, bytes is their sum, both bounds hold, and survivors are the most recently used |
| ProofCache.AnswersAreGenuine | cmd/pensiero/cache.go:237-311 | in every run every answer returned or stored was computed successfully for its key, errors are never stored, and a request that has ended has released its generation once, and no other has |
| ProofCache.OneFlight | cmd/pensiero/cache.go:248-271 | in every run at most one request computes for a key, and storing the answer never replaces an entry |
| CacheProgress.CallsAreAnswered | cmd/pensiero/cache.go:272-311 | in every run a call is done exactly when its owner has taken the steps it had left, four at most, whatever the others do; then those who wait can wake |
| CacheProgress.NobodyIsStuck | cmd/pensiero/cache.go:248-264 | in every run a request that has not ended can go on, or waits for a call whose owner can and gets nearer its end by that |
| CacheProgress.EveryoneEnds | cmd/pensiero/cache.go:237-302 | while no request arrives every run is short, retries after failed calls included, and can go on until all requests have ended |
| CacheProgress.RemainingFalls | cmd/pensiero/cache.go:237-302 | every step of any request lowers one measure of what is left to do |
| ProofCache.StepInv | cmd/pensiero/cache.go:237-342 | every step keeps the invariant: each unfinished call has a live owner, calls in flight are unfinished, answers are genuine |
| CacheObjects.Loader.LoadOrCompute | cmd/pensiero/cache.go:237-302 | on every exit, whatever other requests do whenever the lock is free and however often it retries, the release function has been called exactly once; the request has ended with the result, an answer is genuine, an error has its cause in a failed computation of its own or a cancelled context, and the whole is a run of the protocol |
| CacheObjects.OthersLeaveAlone | cmd/pensiero/cache.go:237-302 | no steps of other requests, however many, touch a request |
| CacheObjects.Loader.Look | cmd/pensiero/cache.go:239-271 | under the lock: a hit, a join, an abort or a start, each the step it should be |
| CacheObjects.Loader.FinishCall | cmd/pensiero/cache.go:304-311 | the result is left with the call, and the key is free again |
| HandlePool.SafeThroughout | cmd/pensiero/pool.go:83-140 | in every run idle and borrowed handles are all the handles, giving one back never panics, no two queries share one, and none runs on a closed one |
| HandlePool.ClosedForGood | cmd/pensiero/pool.go:123-140 | in every run, when Close is through, every handle has been closed exactly once and no query is left in the wait group |
| HandlePool.StepInv | cmd/pensiero/pool.go:83-140 | every step keeps each handle with one owner and the wait group equal to the queries in it |
| HandlePool.SomeoneGoesOn | cmd/pensiero/pool.go:83-113 | while some query is unfinished, some query can go on, and gets nearer its end |
| HandlePool.CloseGoesOn | cmd/pensiero/pool.go:123-140 | once all queries are finished Close can go on to its end |
| PoolObjects.GraphPool.ReturnHandle | cmd/pensiero/pool.go:115-121 | there is always room for the handle |
| PoolObjects.GraphPool.Enter | cmd/pensiero/pool.go:100-109 | a query joins the wait group exactly if the pool is still open |
| PoolObjects.GraphPool.CloseHandles | cmd/pensiero/pool.go:128-138 | after the last query has left, every handle is closed |

## Left out

- Rounding of floating-point numbers: confidences are real numbers.
- Spelling of predicates and entities: a predicate is its trimmed, lower-case name, an entity of the taxonomy is one key;
  merging of aliases and display names, and sort orders that only make output deterministic, are not modelled.
- Parsing of OBO text: stanzas are inputs. Names.NamesAreANaming and SignalsExample are about ASCII letters and spaces.
- Reading the taxonomy frontier by frontier from the graph: the hierarchy starts from the edges that were read.
- Cancellation while a graph is built, which only abandons the run.
- Negation as failure: a negated condition may succeed because a limit was hit, so outside the fragment the answers are
  exact only if work was left (Answers.EntailedIff, Firing.FiresIff), and what negated conditions mean is what the search
  finds with its guard and depth. The results that do not depend on guard and depth, and those on sufficient limits, are
  for rules without exceptions and negated conditions whose condition variables all occur in the consequent.
- Budgets.SomeLimitsSuffice: bounds the work of the fragment only; elsewhere the values the oracle offers bring in names
  that are not known beforehand.
- PathJudgement.BestPathIsJudged: assumes names spelled alike on both sides, no predicate accepted that composes with
  itself, and stored edges that need no turning.
- A base reasoner that calls the conditional reasoner again with the same state through its context.
- Chainer.ConditionalReasoner.Entails: assumes that canonicalizing a predicate twice is canonicalizing it once
  (Registry.UnshadowedIsSettled); every search in the chainer does.
- Calls on an absent (nil) store, cache or pool, and generations without a reasoner, which only return an error.
- Validation of rules by the rule schema, whose source is not part of this model: validity is a parameter.
- `proofEntailsPredicate` with inverses as a statement about one direction: it accepts either direction on purpose.
- A registry that is absent (nil), and the legacy mode of the native reasoner beyond its answers being passed on.
- Text that is not valid UTF-8: commas and backslashes are single bytes in UTF-8, so characters are treated as bytes.
- Key hashing, cloning and size estimates of cached values; telemetry, timing, the network, files and the database engine.
- Entailment.TransitiveSuperProperties: assumes that canonical names are settled, which holds unless an alias is spelled
  like the canonical name of another predicate (Registry.UnshadowedIsSettled); so do the members that use it.
- Native.Entails: says what an entailed answer rests on when predicates are enforced.
- GuardExact.GuardHarmlessIff: assumes that matching tells no names apart that the guard does not (Rules.MatchesFolded),
  which holds because both lower-case them.
- Rules without conditions are accepted where validity is left open; GuardExact.GuardHarmlessIff uses one for bases that
  contradict a claim and leave open another that looks the same.
- CacheObjects.Loader.LoadOrCompute: the context ends after some number of waits, which is arbitrary, so every execution
  that ends is covered; with others arriving for ever and failing each time, one without a deadline need not.
- CacheObjects.Loader.LetOthers: stands for all other requests by its contract, any steps of theirs; its body takes none.
