/**
 * `categorize_name`: the first rule of the table whose pattern occurs in
 * the text gives the label, else the sentinel "Other";
 * `combined_function_name`: the structural extractor, then the name
 * table, then the brand table, each consulted only when every earlier
 * tier answered "Other".
 */
module Classifier {
  import opened Regex
  import opened NameTable

  /** The label for "no rule matched". */
  const Other: string := "Other"

  /** Rule k is the first rule of the list whose pattern occurs in t. */
  ghost predicate IsFirstMatch(rules: seq<Rule>, t: string, k: int)
  {
    && 0 <= k < |rules|
    && Search(rules[k].pattern, t)
    && forall j :: 0 <= j < k ==> !Search(rules[j].pattern, t)
  }

  /** No pattern of the list occurs in t. */
  ghost predicate NoneMatch(rules: seq<Rule>, t: string)
  {
    forall j :: 0 <= j < |rules| ==> !Search(rules[j].pattern, t)
  }

  /** The labels of a list of rules. */
  ghost function Labels(rules: seq<Rule>): set<string>
  {
    set k | 0 <= k < |rules| :: rules[k].category
  }

  /** The search loop: walk the rules in order and stop at the first pattern found. */
  function FirstMatch(rules: seq<Rule>, t: string): (r: string)
    ensures
      || (exists k :: IsFirstMatch(rules, t, k) && r == rules[k].category)
      || (NoneMatch(rules, t) && r == Other)
  {
    if |rules| == 0 then Other
    else if Search(rules[0].pattern, t) then
      assert IsFirstMatch(rules, t, 0);
      rules[0].category
    else
      var r := FirstMatch(rules[1..], t);
      FirstMatchShift(rules, t, r);
      r
  }

  lemma FirstMatchShift(rules: seq<Rule>, t: string, r: string)
    requires |rules| > 0 && !Search(rules[0].pattern, t)
    requires
      || (exists k :: IsFirstMatch(rules[1..], t, k) && r == rules[1..][k].category)
      || (NoneMatch(rules[1..], t) && r == Other)
    ensures
      || (exists k :: IsFirstMatch(rules, t, k) && r == rules[k].category)
      || (NoneMatch(rules, t) && r == Other)
  {
    if k :| IsFirstMatch(rules[1..], t, k) && r == rules[1..][k].category {
      assert IsFirstMatch(rules, t, k + 1);
    } else {
      assert NoneMatch(rules, t) by {
        forall j | 0 <= j < |rules| ensures !Search(rules[j].pattern, t) {
          if j > 0 { assert rules[j] == rules[1..][j - 1]; }
        }
      }
    }
  }

  lemma NoPersonLabelledOther()
    ensures forall k | 0 <= k < |People| :: People[k].category != Other
  {
  }

  lemma NoMerchantLabelledOther()
    ensures forall k | 0 <= k < |Merchants| :: Merchants[k].category != Other
  {
  }

  lemma NoServiceLabelledOther()
    ensures forall k | 0 <= k < |Services| :: Services[k].category != Other
  {
  }

  /** No rule of the table is labelled with the sentinel. */
  lemma NoRuleLabelledOther()
    ensures forall k | 0 <= k < |Table| :: Table[k].category != Other
  {
    NoPersonLabelledOther();
    NoMerchantLabelledOther();
    NoServiceLabelledOther();
    forall k | 0 <= k < |Table| ensures Table[k].category != Other {
      if k < |People| {
        assert Table[k] == People[k];
      } else if k < |People| + |Merchants| {
        assert Table[k] == Merchants[k - |People|];
      } else {
        assert Table[k] == Services[k - |People| - |Merchants|];
      }
    }
  }

  /** `categorize_name(text)` */
  function CategorizeName(text: string): (r: string)
    ensures r == Other || r in Labels(Table)
    ensures r == Other <==> NoneMatch(Table, text)
    ensures r != Other ==> exists k :: IsFirstMatch(Table, text, k) && r == Table[k].category
  {
    NoRuleLabelledOther();
    FirstMatch(Table, text)
  }

  /**
   * `combined_function_name(description)`, with the two collaborators the
   * source calls but does not define passed in as functions.
   */
  function CombinedName(extractName: string -> string, categorizeBrands: string -> string,
                        description: string): (r: string)
    ensures extractName(description) != Other ==> r == extractName(description)
    ensures extractName(description) == Other && !NoneMatch(Table, description) ==>
              exists k :: IsFirstMatch(Table, description, k) && r == Table[k].category
    ensures extractName(description) == Other && NoneMatch(Table, description) ==>
              r == categorizeBrands(description)
    ensures r == Other <==>
              && extractName(description) == Other
              && NoneMatch(Table, description)
              && categorizeBrands(description) == Other
  {
    var name := extractName(description);
    if name == Other then
      var name' := CategorizeName(description);
      if name' == Other then categorizeBrands(description) else name'
    else name
  }

  // ---------------------------------------------------------------------
  // The first-match search

  /** A rule that matches bounds the answer: it comes from that rule or an earlier one. */
  lemma {:induction false} FirstMatchWins(rules: seq<Rule>, t: string, j: int)
    requires 0 <= j < |rules| && Search(rules[j].pattern, t)
    ensures exists i :: 0 <= i <= j && IsFirstMatch(rules, t, i) && FirstMatch(rules, t) == rules[i].category
  {
    if Search(rules[0].pattern, t) {
      assert IsFirstMatch(rules, t, 0);
    } else {
      assert rules[j] == rules[1..][j - 1];
      FirstMatchWins(rules[1..], t, j - 1);
      var i :| && 0 <= i <= j - 1 && IsFirstMatch(rules[1..], t, i)
               && FirstMatch(rules[1..], t) == rules[1..][i].category;
      assert IsFirstMatch(rules, t, i + 1) by {
        forall m | 0 <= m < i + 1 ensures !Search(rules[m].pattern, t) {
          if m > 0 { assert rules[m] == rules[1..][m - 1]; }
        }
      }
    }
  }

  /** Searching a concatenation of tables: the second is consulted only when nothing in the first matches. */
  lemma {:induction false} FirstMatchAppend(a: seq<Rule>, b: seq<Rule>, t: string)
    ensures FirstMatch(a + b, t) == if NoneMatch(a, t) then FirstMatch(b, t) else FirstMatch(a, t)
  {
    if |a| == 0 {
      assert a + b == b;
    } else {
      assert (a + b)[0] == a[0];
      assert (a + b)[1..] == a[1..] + b;
      if !Search(a[0].pattern, t) {
        FirstMatchAppend(a[1..], b, t);
        assert NoneMatch(a, t) == NoneMatch(a[1..], t) by {
          if NoneMatch(a[1..], t) {
            forall j | 0 <= j < |a| ensures !Search(a[j].pattern, t) {
              if j > 0 { assert a[j] == a[1..][j - 1]; }
            }
          }
        }
      } else {
        assert !NoneMatch(a, t);
      }
    }
  }

  /** re.IGNORECASE: the answer depends on the text only up to ASCII case. */
  lemma {:induction false} FirstMatchIgnoresCase(rules: seq<Rule>, t: string, u: string)
    requires SameFold(t, u)
    ensures FirstMatch(rules, t) == FirstMatch(rules, u)
  {
    if |rules| > 0 {
      SearchIgnoresCase(rules[0].pattern, t, u);
      FirstMatchIgnoresCase(rules[1..], t, u);
    }
  }

  lemma CategorizeNameIgnoresCase(t: string, u: string)
    requires SameFold(t, u)
    ensures CategorizeName(t) == CategorizeName(u)
  {
    FirstMatchIgnoresCase(Table, t, u);
  }

  // ---------------------------------------------------------------------
  // The fallback chain

  /** The brand table is consulted only when the extractor and the name table both answer "Other". */
  lemma BrandsOnlyAsLastResort(extractName: string -> string, brands1: string -> string,
                               brands2: string -> string, description: string)
    requires extractName(description) != Other || !NoneMatch(Table, description)
    ensures CombinedName(extractName, brands1, description) == CombinedName(extractName, brands2, description)
  {
  }
}
