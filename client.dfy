/*
 * Two rules of the page's script: the selection of condition cards that is
 * sent with an analysis request, and the colour a probability is shown in.
 */
module Client {

  /** The list with every occurrence of c removed: JavaScript's filter(x => x !== c). */
  function Without(s: seq<string>, c: string): (r: seq<string>)
    ensures c !in r && |r| <= |s|
  {
    if s == [] then []
    else (if s[0] == c then [] else [s[0]]) + Without(s[1..], c)
  }

  /** Every other condition stays exactly when it was there. */
  lemma {:induction false} WithoutKeepsOthers(s: seq<string>, c: string, x: string)
    requires x != c
    ensures x in Without(s, c) <==> x in s
    decreases |s|
  {
    if s != [] {
      WithoutKeepsOthers(s[1..], c, x);
      assert s == [s[0]] + s[1..];
    }
  }

  /** Filtering a concatenation filters each part: what stays keeps its order. */
  lemma {:induction false} WithoutAppend(a: seq<string>, b: seq<string>, c: string)
    ensures Without(a + b, c) == Without(a, c) + Without(b, c)
    decreases |a|
  {
    if a == [] {
      assert a + b == b;
    } else {
      var head := if a[0] == c then [] else [a[0]];
      WithoutAppend(a[1..], b, c);
      WithoutStep(a, b, c);
      Associative(head, Without(a[1..], c), Without(b, c));
    }
  }

  lemma WithoutStep(a: seq<string>, b: seq<string>, c: string)
    requires a != []
    ensures Without(a + b, c) == (if a[0] == c then [] else [a[0]]) + Without(a[1..] + b, c)
  {
    assert (a + b)[1..] == a[1..] + b;
    assert (a + b)[0] == a[0];
  }

  /** A proof helper: concatenation regrouped, stated apart to keep the induction step small. */
  lemma Associative(x: seq<string>, y: seq<string>, z: seq<string>)
    ensures x + (y + z) == (x + y) + z
  {
  }

  /** Removing an absent condition changes nothing. */
  lemma {:induction false} WithoutAbsent(s: seq<string>, c: string)
    requires c !in s
    ensures Without(s, c) == s
    decreases |s|
  {
    if s != [] {
      assert s[0] != c;
      WithoutAbsent(s[1..], c);
      assert [s[0]] + s[1..] == s;
    }
  }

  predicate NoDuplicates(s: seq<string>)
  {
    forall i, j :: 0 <= i < j < |s| ==> s[i] != s[j]
  }

  /** In a list without duplicates, removing c deletes exactly its one position. */
  lemma WithoutAt(s: seq<string>, i: nat)
    requires NoDuplicates(s) && i < |s|
    ensures Without(s, s[i]) == s[..i] + s[i + 1..]
  {
    OnlyAt(s, i);
    assert s == s[..i] + [s[i]] + s[i + 1..];
    WithoutSplit(s[..i], s[i], s[i + 1..]);
  }

  /** In a list without duplicates, an element occurs neither before nor after its position. */
  lemma OnlyAt(s: seq<string>, i: nat)
    requires NoDuplicates(s) && i < |s|
    ensures s[i] !in s[..i] && s[i] !in s[i + 1..]
  {
    var before, after := s[..i], s[i + 1..];
    forall j | 0 <= j < |before|
      ensures before[j] != s[i]
    {
      assert before[j] == s[j];
    }
    forall j | 0 <= j < |after|
      ensures after[j] != s[i]
    {
      assert after[j] == s[i + 1 + j];
    }
  }

  lemma WithoutSplit(before: seq<string>, c: string, after: seq<string>)
    requires c !in before && c !in after
    ensures Without(before + [c] + after, c) == before + after
  {
    var front := before + [c];
    WithoutAppend(front, after, c);
    WithoutAppend(before, [c], c);
    WithoutAbsent(before, c);
    WithoutAbsent(after, c);
    assert Without([c], c) == [];
    assert before + [] == before;
  }

  /** The list after a click on the card of c. */
  function Toggled(s: seq<string>, c: string): (r: seq<string>)
    ensures c in r <==> c !in s
  {
    if c in s then Without(s, c) else s + [c]
  }

  /** A click keeps the list free of duplicates. */
  lemma ToggledNoDuplicates(s: seq<string>, c: string)
    requires NoDuplicates(s)
    ensures NoDuplicates(Toggled(s, c))
  {
    if c in s {
      var i :| 0 <= i < |s| && s[i] == c;
      WithoutAt(s, i);
      DeleteNoDuplicates(s, i);
    } else {
      var r := s + [c];
      forall j, k | 0 <= j < k < |r|
        ensures r[j] != r[k]
      {
        assert r[j] == s[j];
      }
    }
  }

  /** Deleting one position keeps a list free of duplicates. */
  lemma DeleteNoDuplicates(s: seq<string>, i: nat)
    requires NoDuplicates(s) && i < |s|
    ensures NoDuplicates(s[..i] + s[i + 1..])
  {
    var r := s[..i] + s[i + 1..];
    forall j, k | 0 <= j < k < |r|
      ensures r[j] != r[k]
    {
      var j' := if j < i then j else j + 1;
      var k' := if k < i then k else k + 1;
      assert r[j] == s[j'] && r[k] == s[k'];
    }
  }


  /** A click on an unselected condition appends it; a click on a selected one removes it and nothing else. */
  lemma ToggledMembership(s: seq<string>, c: string)
    ensures c in Toggled(s, c) <==> c !in s
    ensures forall x :: x != c ==> (x in Toggled(s, c) <==> x in s)
  {
    forall x | x != c
      ensures x in Toggled(s, c) <==> x in s
    {
      WithoutKeepsOthers(s, c, x);
    }
  }

  /**
   * Two clicks on a condition that was not selected restore the list; two
   * clicks on a selected one move it to the end.
   */
  lemma ToggledTwice(s: seq<string>, c: string)
    ensures c !in s ==> Toggled(Toggled(s, c), c) == s
    ensures c in s ==> Toggled(Toggled(s, c), c) == Without(s, c) + [c]
  {
    if c !in s {
      assert c in s + [c];
      WithoutAppend(s, [c], c);
      WithoutAbsent(s, c);
      assert Without([c], c) == [];
    }
  }

  /**
   * The page's selection state: the selectedConditions list and the set of
   * condition cards drawn as active.
   */
  class ConditionSelection {
    var selected: seq<string>
    var active: set<string>

    /** The list has no duplicates and the active cards are exactly the selected conditions. */
    ghost predicate Valid()
      reads this
    {
      NoDuplicates(selected) && forall c :: c in active <==> c in selected
    }

    /** Page load: nothing selected, no card active. */
    constructor ()
      ensures Valid() && selected == [] && active == {}
    {
      selected := [];
      active := {};
    }

    /** A click on the card of c: the card's active class flips, and c leaves or joins the list. */
    method Toggle(c: string)
      requires Valid()
      modifies this
      ensures Valid()
      ensures selected == Toggled(old(selected), c)
      ensures active == if c in old(active) then old(active) - {c} else old(active) + {c}
    {
      if c in active {
        active := active - {c};
      } else {
        active := active + {c};
      }
      ToggledNoDuplicates(selected, c);
      ToggledMembership(selected, c);
      if c in selected {
        selected := Without(selected, c);
      } else {
        selected := selected + [c];
      }
    }

    /** The reset button: the list is emptied and every card made inactive. */
    method Reset()
      modifies this
      ensures Valid() && selected == [] && active == {}
    {
      active := {};
      selected := [];
    }
  }

  // ---- probability colours ----

  const Red := "#ef4444"
  const Amber := "#f59e0b"
  const Green := "#10b981"

  /** getProbabilityColor: 70 and over red, 40 and over amber, green below. */
  function ProbabilityColor(probability: int): (color: string)
    ensures color == Red <==> probability >= 70
    ensures color == Amber <==> 40 <= probability < 70
    ensures color == Green <==> probability < 40
  {
    if probability >= 70 then Red
    else if probability >= 40 then Amber
    else Green
  }

  /** How alarming a colour is: green, amber, red. */
  function Severity(color: string): nat
  {
    if color == Red then 2 else if color == Amber then 1 else 0
  }

  /** A higher probability is never shown in a less alarming colour. */
  lemma ColorMonotone(p1: int, p2: int)
    requires p1 <= p2
    ensures Severity(ProbabilityColor(p1)) <= Severity(ProbabilityColor(p2))
  {
  }
}
