/** What pod selectors select: expressions and labels in terms of each other, and selectors over
    the live pods dimension by dimension. */
module Selectors {
  import opened Base
  import opened Policy
  import opened Programmer

  /** Asking for one value of a key is asking for that label, unless the value is empty: an absent
      label reads as the empty one, but is not in any set. */
  lemma InOneIsLabel(k: string, v: string, labels: Labels)
    ensures RequirementMatches(Requirement(k, In, [v]), labels) <==> k in labels && labels[k] == v
    ensures LabelsMatch(map[k := v], labels) <==> (k in labels && labels[k] == v) || (k !in labels && v == "")
  {
    assert k in map[k := v];
  }

  /** `In` is the disjunction over its values; the negative operators are the complements of the
      positive ones; `Exists` is `In` for whatever value the key has. */
  lemma OperatorsByLabel(k: string, vs: seq<string>, labels: Labels)
    ensures RequirementMatches(Requirement(k, In, vs), labels)
            <==> exists v <- vs :: RequirementMatches(Requirement(k, In, [v]), labels)
    ensures RequirementMatches(Requirement(k, NotIn, vs), labels) <==> !RequirementMatches(Requirement(k, In, vs), labels)
    ensures RequirementMatches(Requirement(k, Exists, vs), labels)
            <==> exists v: string :: RequirementMatches(Requirement(k, In, [v]), labels)
    ensures RequirementMatches(Requirement(k, DoesNotExist, vs), labels)
            <==> !RequirementMatches(Requirement(k, Exists, vs), labels)
  {
    if k in labels {
      InOneIsLabel(k, labels[k], labels);
      assert RequirementMatches(Requirement(k, In, [labels[k]]), labels);
    }
    forall v <- vs ensures RequirementMatches(Requirement(k, In, [v]), labels) <==> k in labels && labels[k] == v {
      InOneIsLabel(k, v, labels);
    }
  }

  // ---- Over the live pods ----

  function ByLabel(k: string, v: string): PodSelector {
    ZeroSelector.(labels := map[k := v])
  }

  function ByExpression(r: Requirement): PodSelector {
    ZeroSelector.(matchExpressions := [r])
  }

  lemma ExpressionResolves(r: Requirement, pods: Pods, cg: U64)
    ensures cg in MatchCgroups(ByExpression(r), pods) <==> cg in pods && RequirementMatches(r, pods[cg].labels)
  {
    assert r in [r];
    assert ByExpression(r) != ZeroSelector;
  }

  lemma LabelResolves(k: string, v: string, pods: Pods, cg: U64)
    ensures cg in MatchCgroups(ByLabel(k, v), pods) <==> cg in pods && LabelsMatch(map[k := v], pods[cg].labels)
  {
    assert k in map[k := v];
    assert ByLabel(k, v) != ZeroSelector;
  }

  /** A label selector and the one-value expression program the same cgroups: those of the live pods
      that carry the label. */
  lemma LabelAndExpressionAlike(k: string, v: string, pods: Pods)
    requires v != ""
    ensures MatchCgroups(ByLabel(k, v), pods) == MatchCgroups(ByExpression(Requirement(k, In, [v])), pods)
            == set cg <- pods | k in pods[cg].labels && pods[cg].labels[k] == v
  {
    forall cg: U64
      ensures cg in MatchCgroups(ByLabel(k, v), pods) <==> cg in pods && k in pods[cg].labels && pods[cg].labels[k] == v
      ensures cg in MatchCgroups(ByLabel(k, v), pods) <==> cg in MatchCgroups(ByExpression(Requirement(k, In, [v])), pods)
    {
      LabelResolves(k, v, pods, cg);
      ExpressionResolves(Requirement(k, In, [v]), pods, cg);
      if cg in pods {
        InOneIsLabel(k, v, pods[cg].labels);
      }
    }
  }

  /** The negative operators program exactly the other live pods. */
  lemma NegationResolves(k: string, vs: seq<string>, pods: Pods)
    ensures MatchCgroups(ByExpression(Requirement(k, NotIn, vs)), pods)
            == pods.Keys - MatchCgroups(ByExpression(Requirement(k, In, vs)), pods)
    ensures MatchCgroups(ByExpression(Requirement(k, DoesNotExist, vs)), pods)
            == pods.Keys - MatchCgroups(ByExpression(Requirement(k, Exists, vs)), pods)
  {
    forall cg: U64
      ensures cg in MatchCgroups(ByExpression(Requirement(k, NotIn, vs)), pods)
              <==> cg in pods && cg !in MatchCgroups(ByExpression(Requirement(k, In, vs)), pods)
      ensures cg in MatchCgroups(ByExpression(Requirement(k, DoesNotExist, vs)), pods)
              <==> cg in pods && cg !in MatchCgroups(ByExpression(Requirement(k, Exists, vs)), pods)
    {
      forall op: Operator
        ensures cg in MatchCgroups(ByExpression(Requirement(k, op, vs)), pods)
                <==> cg in pods && RequirementMatches(Requirement(k, op, vs), pods[cg].labels)
      {
        ExpressionResolves(Requirement(k, op, vs), pods, cg);
      }
      if cg in pods {
        OperatorsByLabel(k, vs, pods[cg].labels);
      }
    }
  }

  /** A selector programs the live pods that pass every dimension it sets. */
  lemma ResolvesByDimension(sel: PodSelector, pods: Pods, cg: U64)
    requires sel != ZeroSelector
    ensures cg in MatchCgroups(sel, pods) <==>
            && cg in pods
            && sel.namespace in {"", pods[cg].namespace} && sel.name in {"", pods[cg].name} && sel.uid in {"", pods[cg].uid}
            && (forall k <- sel.labels :: cg in MatchCgroups(ByLabel(k, sel.labels[k]), pods))
            && (forall r <- sel.matchExpressions :: cg in MatchCgroups(ByExpression(r), pods))
  {
    if cg in pods {
      var labels := pods[cg].labels;
      forall k <- sel.labels
        ensures cg in MatchCgroups(ByLabel(k, sel.labels[k]), pods) <==> Label(labels, k) == sel.labels[k]
      {
        LabelResolves(k, sel.labels[k], pods, cg);
        assert k in map[k := sel.labels[k]];
      }
      forall r <- sel.matchExpressions
        ensures cg in MatchCgroups(ByExpression(r), pods) <==> RequirementMatches(r, labels)
      {
        ExpressionResolves(r, pods, cg);
      }
    }
  }
}
