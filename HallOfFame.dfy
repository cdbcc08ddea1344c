/** The hall of fame: the profile link of a contributor is built from the
    name as `name.toLowerCase().replace(' ', '-')`. */
module HallOfFame {
  import opened Forms

  predicate IsUpper(c: char) {
    'A' <= c <= 'Z'
  }

  /** Lower case for one character, over ASCII letters. */
  function Lower(c: char): char {
    if IsUpper(c) then (c as int + 32) as char else c
  }

  /** `toLowerCase`: position by position, each character lowered. */
  function ToLower(s: string): (r: string)
    ensures |r| == |s|
    ensures forall i :: 0 <= i < |s| ==> r[i] == Lower(s[i])
  {
    if s == [] then [] else [Lower(s[0])] + ToLower(s[1..])
  }

  /** `replace` with a one-character string pattern: only the first match
      is replaced. */
  function ReplaceFirst(s: string, pattern: char, replacement: char): (r: string)
    ensures |r| == |s|
    ensures pattern !in s ==> r == s
    ensures forall i :: 0 <= i < |s| ==>
      r[i] == if i == IndexOf(s, pattern) then replacement else s[i]
  {
    var i := IndexOf(s, pattern);
    if i == -1 then s else s[..i] + [replacement] + s[i + 1..]
  }

  /** The slug is as long as the name. Its character at the name's first
      space is `-`; every other character is the name's, lowered. */
  function ProfileSlug(name: string): (r: string)
    ensures |r| == |name|
    ensures forall i :: 0 <= i < |name| ==>
      r[i] == if i == IndexOf(name, ' ') then '-' else Lower(name[i])
  {
    SpacesStayPut(name);
    ReplaceFirst(ToLower(name), ' ', '-')
  }

  /** Lowering leaves spaces where they are, so the first space of the
      lowered name is the first space of the name. */
  lemma {:induction false} SpacesStayPut(s: string)
    ensures IndexOf(ToLower(s), ' ') == IndexOf(s, ' ')
    decreases |s|
  {
    if s != [] {
      SpacesStayPut(s[1..]);
      assert ToLower(s)[1..] == ToLower(s[1..]);
    }
  }

  /** Spaces after the first one are kept. */
  lemma LaterSpacesKept(name: string, i: int)
    requires 0 <= i < |name| && name[i] == ' ' && i != IndexOf(name, ' ')
    ensures ProfileSlug(name)[i] == ' '
  {
  }

  /** A name without a space gives just its lower-case form. */
  lemma NoSpaceSlug(name: string)
    requires ' ' !in name
    ensures ProfileSlug(name) == ToLower(name)
  {
  }

  /** No upper-case ASCII letter survives in the slug. */
  lemma SlugHasNoUpper(name: string)
    ensures forall i :: 0 <= i < |ProfileSlug(name)| ==> !IsUpper(ProfileSlug(name)[i])
  {
  }

  /** The pointwise description of `ProfileSlug`, read back for a name split at
      its first space. */
  lemma {:induction false} SlugFromPoints(first: string, rest: string, slug: string)
    requires |slug| == |first| + 1 + |rest|
    requires forall i :: 0 <= i < |slug| ==>
      slug[i] == if i == |first| then '-' else Lower((first + " " + rest)[i])
    ensures slug == ToLower(first) + "-" + ToLower(rest)
  {
    var name := first + " " + rest;
    var expected := ToLower(first) + "-" + ToLower(rest);
    forall i | 0 <= i < |slug|
      ensures slug[i] == expected[i]
    {
      if i < |first| {
        assert name[i] == first[i] && expected[i] == ToLower(first)[i];
      } else if i > |first| {
        var j := i - |first| - 1;
        assert name[i] == rest[j] && expected[i] == ToLower(rest)[j];
      }
    }
  }

  /** A name made of a first part without spaces, a space and the rest:
      the slug is the lowered first part, a dash and the lowered rest, in
      which further spaces stay spaces. */
  lemma SlugOfParts(first: string, rest: string)
    requires ' ' !in first
    ensures ProfileSlug(first + " " + rest) == ToLower(first) + "-" + ToLower(rest)
  {
    var name := first + " " + rest;
    assert name[..|first|] == first;
    FirstAt(name, ' ', |first|);
    SlugFromPoints(first, rest, ProfileSlug(name));
  }
}
