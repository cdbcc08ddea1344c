/** The membership application: a record edited by `handleChange`, and its
    list of areas of interest, to which a ticked box appends its value and
    from which an unticked box removes the first copy. */
module Membership {
  import opened Forms

  /** The application a visitor starts from: the General tier, no
      interests, the code of conduct not yet accepted, all else empty. */
  const InitialApplication: map<string, FieldValue> := map[
    "name" := Text(""), "email" := Text(""), "phone" := Text(""),
    "tier" := Text("general"), "experience" := Text(""), "interests" := Items([]),
    "message" := Text(""), "codeOfConduct" := Flag(false)]

  // ---------------------------------------------------------------------
  // The interest list.

  /** Reference definition of unticking: the list with the first copy of
      `v` left out, or the same list when `v` is not in it. */
  function WithoutFirst(xs: seq<string>, v: string): (r: seq<string>)
    ensures |r| == if v in xs then |xs| - 1 else |xs|
  {
    if xs == [] then []
    else if xs[0] == v then xs[1..]
    else [xs[0]] + WithoutFirst(xs[1..], v)
  }

  /** The interest list after a tick (`checked`) or an untick of `v`. */
  function InterestsAfter(xs: seq<string>, v: string, checked: bool): seq<string> {
    if checked then xs + [v] else WithoutFirst(xs, v)
  }

  /** What `splice(indexOf(v), 1)` does is the reference untick. */
  lemma {:induction false} SpliceIsWithoutFirst(xs: seq<string>, v: string)
    requires v in xs
    ensures var i := IndexOf(xs, v); xs[..i] + xs[i + 1..] == WithoutFirst(xs, v)
    decreases |xs|
  {
    if xs[0] != v {
      SpliceIsWithoutFirst(xs[1..], v);
      var i := IndexOf(xs, v);
      assert IndexOf(xs[1..], v) == i - 1;
      assert xs[..i] == [xs[0]] + xs[1..][..i - 1];
      assert xs[i + 1..] == xs[1..][i..];
    }
  }

  /** Unticking a value that is not in the list leaves the list as it is. */
  lemma {:induction false} UntickAbsent(xs: seq<string>, v: string)
    requires v !in xs
    ensures WithoutFirst(xs, v) == xs
    decreases |xs|
  {
    if xs != [] {
      UntickAbsent(xs[1..], v);
      assert xs == [xs[0]] + xs[1..];
    }
  }

  /** Unticking a value that is in the list removes exactly one copy of it:
      one element less, one `v` less, every other value as often as
      before, and every element in front of the first `v` in place. */
  lemma {:induction false} UntickPresent(xs: seq<string>, v: string)
    requires v in xs
    ensures var r := WithoutFirst(xs, v);
      && |r| == |xs| - 1
      && multiset(r) == multiset(xs) - multiset{v}
      && r[..IndexOf(xs, v)] == xs[..IndexOf(xs, v)]
    decreases |xs|
  {
    if xs[0] != v {
      UntickPresent(xs[1..], v);
      assert xs == [xs[0]] + xs[1..];
      var i := IndexOf(xs, v);
      assert IndexOf(xs[1..], v) == i - 1;
      var r := WithoutFirst(xs, v);
      assert r[..i] == [xs[0]] + WithoutFirst(xs[1..], v)[..i - 1];
      assert xs[..i] == [xs[0]] + xs[1..][..i - 1];
    } else {
      assert xs == [xs[0]] + xs[1..];
    }
  }

  /** Ticking never de-duplicates: the list grows by one and holds one
      more `v`, whether or not `v` was there already. */
  lemma TickAppends(xs: seq<string>, v: string)
    ensures var r := InterestsAfter(xs, v, true);
      |r| == |xs| + 1 && r[|xs|] == v && multiset(r)[v] == multiset(xs)[v] + 1
  {
  }

  /** Ticking and then unticking a value that was not chosen gives back
      the original list exactly. */
  lemma {:induction false} TickThenUntick(xs: seq<string>, v: string)
    requires v !in xs
    ensures InterestsAfter(InterestsAfter(xs, v, true), v, false) == xs
    decreases |xs|
  {
    if xs != [] {
      TickThenUntick(xs[1..], v);
      assert (xs + [v])[1..] == xs[1..] + [v];
      assert xs == [xs[0]] + xs[1..];
    }
  }

  // ---------------------------------------------------------------------
  // The application form.

  class MembershipForm {
    var formData: map<string, FieldValue>

    /** The record always holds its list of interests. */
    ghost predicate Valid()
      reads this
    {
      "interests" in formData && formData["interests"].Items?
    }

    function Interests(): seq<string>
      reads this
      requires Valid()
    {
      formData["interests"].items
    }

    constructor ()
      ensures Valid()
      ensures formData.Keys == {"name", "email", "phone", "tier", "experience", "interests", "message", "codeOfConduct"}
      ensures formData["tier"] == Text("general") && Interests() == []
      ensures formData["codeOfConduct"] == Flag(false)
      ensures forall k :: k in {"name", "email", "phone", "experience", "message"} ==> formData[k] == Text("")
    {
      formData := InitialApplication;
    }

    /** `handleChange`: stores the checkbox state or the string value under
        the input's name; nothing else changes. The interest boxes, the only
        inputs named "interests", are wired to `handleInterestChange`. */
    method HandleChange(target: ChangeTarget)
      requires Valid()
      requires target.name != "interests"
      modifies this
      ensures Valid()
      ensures formData == Applied(old(formData), target)
      ensures Interests() == old(Interests())
    {
      if target.inputType == "checkbox" {
        formData := formData[target.name := Flag(target.checked)];
      } else {
        formData := formData[target.name := Text(target.value)];
      }
    }

    /** `handleInterestChange`: copies the list, pushes the value onto the
        copy when the box is ticked, otherwise splices out its first copy if
        there is one, and stores the copy. Only the list changes. */
    method HandleInterestChange(value: string, checked: bool)
      requires Valid()
      modifies this
      ensures Valid()
      ensures Interests() == InterestsAfter(old(Interests()), value, checked)
      ensures formData.Keys == old(formData.Keys)
      ensures forall k :: k in formData && k != "interests" ==> formData[k] == old(formData[k])
    {
      var interests := Interests();
      if checked {
        interests := interests + [value];
      } else {
        var index := IndexOf(interests, value);
        if index > -1 {
          SpliceIsWithoutFirst(interests, value);
          interests := interests[..index] + interests[index + 1..];
        } else {
          UntickAbsent(interests, value);
        }
      }
      formData := formData["interests" := Items(interests)];
    }
  }
}
