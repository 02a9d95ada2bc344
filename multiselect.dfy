/** The checkbox group of the Streamlit form (`create_multiselect_buttons`):
    the current selection for a key is taken from the session state (or the
    default), every ticked option is removed from it when present and appended
    when absent, and the result is stored back under the key. */
module Multiselect {

  predicate NoDuplicates(s: seq<string>) {
    forall i, j :: 0 <= i < j < |s| ==> s[i] != s[j]
  }

  /** `s` with every occurrence of `x` taken out, the rest in order. */
  function Without(s: seq<string>, x: string): (r: seq<string>)
    ensures x !in r
    ensures forall y :: y != x ==> (y in r <==> y in s)
  {
    if s == [] then []
    else if s[0] == x then Without(s[1..], x)
    else [s[0]] + Without(s[1..], x)
  }

  /** The position of the first occurrence of `x` in `s`. */
  function FirstIndex(s: seq<string>, x: string): (i: nat)
    requires x in s
    ensures i < |s| && s[i] == x
    ensures forall j :: 0 <= j < i ==> s[j] != x
  {
    if s[0] == x then 0 else 1 + FirstIndex(s[1..], x)
  }

  /** `list.remove(x)`: takes out the first occurrence of `x` only, the rest
      in order. */
  function RemoveFirst(s: seq<string>, x: string): (r: seq<string>)
    requires x in s
    ensures |r| == |s| - 1
    ensures r == s[..FirstIndex(s, x)] + s[FirstIndex(s, x) + 1..]
    ensures multiset(r) == multiset(s) - multiset{x}
  {
    var i := FirstIndex(s, x);
    assert s == s[..i] + [x] + s[i + 1..];
    s[..i] + s[i + 1..]
  }

  /** What one ticked option does to the selection: its first occurrence goes
      when the option is there, it is appended at the end when it is not, and
      every other option stays in or out as it was. */
  function Toggle(s: seq<string>, x: string): (r: seq<string>)
    ensures |r| == if x in s then |s| - 1 else |s| + 1
    ensures x !in s ==> r[..|s|] == s && r[|s|] == x
    ensures x in s ==> r == s[..FirstIndex(s, x)] + s[FirstIndex(s, x) + 1..]
    ensures forall y :: y != x ==> (y in r <==> y in s)
  {
    if x in s then RemoveFirst(s, x) else s + [x]
  }

  /** Toggling never disturbs the other options: with the toggled one taken
      out, the list is what it was, in the same order. */
  lemma {:induction false} ToggleKeepsOthers(s: seq<string>, x: string)
    ensures Without(Toggle(s, x), x) == Without(s, x)
  {
    if x in s {
      RemoveFirstKeepsOthers(s, x);
    } else {
      WithoutAppend(s, [x], x);
      assert Without([x], x) == [];
    }
  }

  lemma RemoveFirstKeepsOthers(s: seq<string>, x: string)
    requires x in s
    ensures Without(RemoveFirst(s, x), x) == Without(s, x)
  {
    var i := FirstIndex(s, x);
    assert s == s[..i] + ([x] + s[i + 1..]);
    WithoutAppend(s[..i], [x] + s[i + 1..], x);
    WithoutAppend([x], s[i + 1..], x);
    WithoutAppend(s[..i], s[i + 1..], x);
    assert Without([x], x) == [];
  }

  lemma {:induction false} WithoutAppend(s: seq<string>, t: seq<string>, x: string)
    ensures Without(s + t, x) == Without(s, x) + Without(t, x)
  {
    if s != [] {
      WithoutAppend(s[1..], t, x);
      assert (s + t)[1..] == s[1..] + t;
    } else {
      assert s + t == t;
    }
  }

  /** On a list without duplicates, toggling flips the option's membership,
      leaves every other option's membership alone, and keeps the list free
      of duplicates. */
  lemma ToggleFlips(s: seq<string>, x: string)
    requires NoDuplicates(s)
    ensures x in Toggle(s, x) <==> x !in s
    ensures forall y :: y != x ==> (y in Toggle(s, x) <==> y in s)
    ensures NoDuplicates(Toggle(s, x))
  {
    var r := Toggle(s, x);
    if x in s {
      assert multiset(s)[x] == 1 by { NoDuplicatesCountsOne(s, x); }
      assert multiset(r)[x] == 0;
      forall y | y != x ensures y in r <==> y in s {
        assert multiset(r)[y] == multiset(s)[y];
      }
      MultisetNoDuplicates(s, r);
    } else {
      forall y | y != x ensures y in r <==> y in s {
        assert y in s + [x] <==> y in s || y == x;
      }
    }
  }

  lemma {:induction false} NoDuplicatesCountsOne(s: seq<string>, x: string)
    requires NoDuplicates(s) && x in s
    ensures multiset(s)[x] == 1
  {
    if s[0] == x {
      assert x !in s[1..];
      assert s == [s[0]] + s[1..];
    } else {
      NoDuplicatesCountsOne(s[1..], x);
      assert s == [s[0]] + s[1..];
    }
  }

  /** A list whose multiset is contained in that of a duplicate-free list has no duplicates. */
  lemma MultisetNoDuplicates(s: seq<string>, r: seq<string>)
    requires NoDuplicates(s) && multiset(r) <= multiset(s)
    ensures NoDuplicates(r)
  {
    forall i, j | 0 <= i < j < |r| ensures r[i] != r[j] {
      if r[i] == r[j] {
        var y := r[i];
        CountsTwice(r, i, j);
        NoDuplicatesCountsOne(s, y);
        assert false;
      }
    }
  }

  /** Two equal entries make their value occur at least twice. */
  lemma CountsTwice(r: seq<string>, i: nat, j: nat)
    requires i < j < |r| && r[i] == r[j]
    ensures multiset(r)[r[i]] >= 2
  {
    assert r == r[..i] + [r[i]] + r[i + 1..j] + [r[j]] + r[j + 1..];
  }

  /** The selection after one run over the options: the ticked ones toggled,
      in the order of `options`. */
  function ApplyChecks(s: seq<string>, options: seq<string>, checked: set<string>): (r: seq<string>)
    ensures forall y :: y !in options || y !in checked ==> (y in r <==> y in s)
  {
    if options == [] then s
    else
      var before := ApplyChecks(s, options[..|options| - 1], checked);
      var option := options[|options| - 1];
      if option in checked then Toggle(before, option) else before
  }

  /** One turn of the loop over the options extends the run by one option. */
  lemma ApplyChecksNext(s: seq<string>, options: seq<string>, checked: set<string>, i: nat,
                        before: seq<string>, after: seq<string>)
    requires i < |options| && before == ApplyChecks(s, options[..i], checked)
    requires after == if options[i] !in checked then before
                      else if options[i] in before then RemoveFirst(before, options[i])
                      else before + [options[i]]
    ensures after == ApplyChecks(s, options[..i + 1], checked)
  {
    var run := options[..i + 1];
    assert run[..|run| - 1] == options[..i] && run[|run| - 1] == options[i];
    if options[i] in checked {
      assert ApplyChecks(s, run, checked) == Toggle(before, options[i]);
    }
  }

  /** Starting from a duplicate-free selection and distinct options, an option
      ends up selected exactly when it was selected before or it was ticked,
      but not both; the selection stays free of duplicates. */
  lemma {:induction false} ApplyChecksMembership(s: seq<string>, options: seq<string>, checked: set<string>)
    requires NoDuplicates(s) && NoDuplicates(options)
    ensures NoDuplicates(ApplyChecks(s, options, checked))
    ensures forall y :: y in ApplyChecks(s, options, checked)
                   <==> (y in s <==> !(y in options && y in checked))
  {
    if options != [] {
      var n := |options| - 1;
      var before := ApplyChecks(s, options[..n], checked);
      ApplyChecksMembership(s, options[..n], checked);
      var option := options[n];
      assert option !in options[..n];
      assert options == options[..n] + [option];
      if option in checked {
        ToggleFlips(before, option);
      }
    }
  }

  /** The entries of `s` that a run over `options` leaves in place: those not
      ticked, in their order in `s`. */
  function Kept(s: seq<string>, options: seq<string>, checked: set<string>): (r: seq<string>)
    ensures forall y :: y in r <==> y in s && !(y in options && y in checked)
  {
    if s == [] then []
    else (if s[0] in options && s[0] in checked then [] else [s[0]]) + Kept(s[1..], options, checked)
  }

  /** The ticked options a run adds: those not in `s`, in the order of `options`. */
  function Added(s: seq<string>, options: seq<string>, checked: set<string>): (r: seq<string>)
    ensures forall y :: y in r <==> y in options && y in checked && y !in s
  {
    if options == [] then []
    else
      var o := options[|options| - 1];
      Added(s, options[..|options| - 1], checked) + (if o in checked && o !in s then [o] else [])
  }

  /** The order of the selection after a run: the untouched entries keep
      their order and the newly ticked options follow, in the order of the
      checkboxes. */
  lemma {:induction false} ApplyChecksOrder(s: seq<string>, options: seq<string>, checked: set<string>)
    requires NoDuplicates(s) && NoDuplicates(options)
    ensures ApplyChecks(s, options, checked) == Kept(s, options, checked) + Added(s, options, checked)
  {
    if options == [] {
      KeptUnticked(s, options, checked);
    } else {
      var n := |options| - 1;
      var prior := options[..n];
      var o := options[n];
      assert options == prior + [o];
      assert o !in prior;
      ApplyChecksOrder(s, prior, checked);
      var kept := Kept(s, prior, checked);
      var added := Added(s, prior, checked);
      var before := kept + added;
      if o !in checked {
        KeptSame(s, prior, options, checked);
        assert ApplyChecks(s, options, checked) == before;
        assert Added(s, options, checked) == added;
      } else if o in s {
        assert o in kept && o !in added;
        RemoveFirstPrefix(kept, added, o);
        KeptDrop(s, prior, o, checked);
        assert ApplyChecks(s, options, checked) == Toggle(before, o) == RemoveFirst(before, o);
        assert Added(s, options, checked) == added;
      } else {
        KeptSame(s, prior, options, checked);
        assert o !in before;
        assert ApplyChecks(s, options, checked) == Toggle(before, o) == before + [o];
        assert Added(s, options, checked) == added + [o];
      }
    }
  }

  /** A list none of whose entries is ticked is kept whole. */
  lemma {:induction false} KeptUnticked(s: seq<string>, options: seq<string>, checked: set<string>)
    requires forall y :: y in s ==> !(y in options && y in checked)
    ensures Kept(s, options, checked) == s
  {
    if s != [] {
      assert s[0] in s;
      assert forall y :: y in s[1..] ==> y in s;
      KeptUnticked(s[1..], options, checked);
      assert s == [s[0]] + s[1..];
    }
  }

  /** Whether an entry stays depends only on whether it was ticked. */
  lemma {:induction false} KeptSame(s: seq<string>, p: seq<string>, q: seq<string>, checked: set<string>)
    requires forall y :: y in s ==> ((y in p && y in checked) <==> (y in q && y in checked))
    ensures Kept(s, p, checked) == Kept(s, q, checked)
  {
    if s != [] {
      assert s[0] in s;
      assert forall y :: y in s[1..] ==> y in s;
      KeptSame(s[1..], p, q, checked);
    }
  }

  /** Ticking one more option that is in the list drops its single entry. */
  lemma {:induction false} KeptDrop(s: seq<string>, prior: seq<string>, o: string, checked: set<string>)
    requires NoDuplicates(s) && o in s && o !in prior && o in checked
    ensures Kept(s, prior + [o], checked) == RemoveFirst(Kept(s, prior, checked), o)
  {
    var t := s[1..];
    assert NoDuplicates(t) by {
      forall i, j | 0 <= i < j < |t| ensures t[i] != t[j] {
        assert t[i] == s[i + 1] && t[j] == s[j + 1];
      }
    }
    var q := prior + [o];
    if s[0] == o {
      assert o !in t by {
        forall i | 0 <= i < |t| ensures t[i] != o {
          assert t[i] == s[i + 1];
        }
      }
      KeptSame(t, prior, q, checked);
      var k := Kept(s, prior, checked);
      assert k == [o] + Kept(t, prior, checked);
      assert FirstIndex(k, o) == 0;
      assert RemoveFirst(k, o) == Kept(t, prior, checked);
      assert Kept(s, q, checked) == Kept(t, q, checked);
    } else {
      assert o in t;
      KeptDrop(t, prior, o, checked);
      var a := s[0];
      var rest := Kept(t, prior, checked);
      assert o in rest;
      if a in prior && a in checked {
        assert Kept(s, prior, checked) == rest;
        assert Kept(s, q, checked) == Kept(t, q, checked);
      } else {
        assert Kept(s, prior, checked) == [a] + rest;
        assert Kept(s, q, checked) == [a] + Kept(t, q, checked);
        RemoveFirstCons(a, rest, o);
      }
    }
  }

  /** Removing from a list whose first entry is another value keeps that entry. */
  lemma RemoveFirstCons(a: string, s: seq<string>, x: string)
    requires a != x && x in s
    ensures RemoveFirst([a] + s, x) == [a] + RemoveFirst(s, x)
  {
    var i := FirstIndex(s, x);
    var t := [a] + s;
    assert t[1..] == s;
    assert FirstIndex(t, x) == i + 1;
    assert t[..i + 1] == [a] + s[..i];
    assert t[i + 2..] == s[i + 1..];
    assert RemoveFirst(t, x) == t[..i + 1] + t[i + 2..];
    assert RemoveFirst(s, x) == s[..i] + s[i + 1..];
    assert RemoveFirst(t, x) == [a] + (s[..i] + s[i + 1..]);
  }

  /** Removing a value found in the first part of a list leaves the second part alone. */
  lemma RemoveFirstPrefix(k: seq<string>, a: seq<string>, x: string)
    requires x in k
    ensures RemoveFirst(k + a, x) == RemoveFirst(k, x) + a
  {
    var i := FirstIndex(k, x);
    var t := k + a;
    assert t[i] == x && forall j :: 0 <= j < i ==> t[j] != x;
    assert FirstIndex(t, x) == i;
    assert t[..i] == k[..i];
    assert t[i + 1..] == k[i + 1..] + a;
  }

  /** The Streamlit session state: the lists stored under widget keys. */
  class SessionState {
    var lists: map<string, seq<string>>

    constructor (lists: map<string, seq<string>>)
      ensures this.lists == lists
    {
      this.lists := lists;
    }
  }

  /** `create_multiselect_buttons`: `checked` is the set of options whose
      checkbox reports ticked on this run. */
  method CreateMultiselectButtons(state: SessionState, key: string, options: seq<string>,
                                  checked: set<string>, default: seq<string>)
    returns (selected: seq<string>)
    modifies state
    ensures selected == ApplyChecks(if key in old(state.lists) then old(state.lists[key]) else default, options, checked)
    ensures state.lists == old(state.lists)[key := selected]
  {
    selected := if key in state.lists then state.lists[key] else default;
    ghost var initial := selected;
    for i := 0 to |options|
      invariant selected == ApplyChecks(initial, options[..i], checked)
      invariant state.lists == old(state.lists)
    {
      var option := options[i];
      ghost var before := selected;
      if option in checked {
        if option in selected {
          selected := RemoveFirst(selected, option);
        } else {
          selected := selected + [option];
        }
      }
      ApplyChecksNext(initial, options, checked, i, before, selected);
    }
    assert options[..|options|] == options;
    state.lists := state.lists[key := selected];
  }
}
