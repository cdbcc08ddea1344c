/** Pieces shared by the site's form components: the values a `formData`
    record holds, the change event its `handleChange` reads, and the two
    JavaScript built-ins the handlers lean on (`indexOf` and the `\d` class). */
module Forms {

  /** A value stored under one key of a `formData` record: the text of an
      input, select or textarea, the state of a checkbox, or a list of strings. */
  datatype FieldValue = Text(text: string) | Flag(checked: bool) | Items(items: seq<string>)

  /** What a change handler reads from `e.target`: the input's `name`,
      `value`, `type` and, for a checkbox, `checked`. */
  datatype ChangeTarget = ChangeTarget(name: string, value: string, inputType: string, checked: bool)

  /** The new record after `setFormData(prev => ({ ...prev, [name]: ... }))`
      where the stored value is the checkbox state for a checkbox and the
      string value for any other input. Every other key keeps its value. */
  function Applied(data: map<string, FieldValue>, t: ChangeTarget): (r: map<string, FieldValue>)
    ensures r.Keys == data.Keys + {t.name}
    ensures t.inputType == "checkbox" ==> r[t.name] == Flag(t.checked)
    ensures t.inputType != "checkbox" ==> r[t.name] == Text(t.value)
    ensures forall k :: k in data && k != t.name ==> r[k] == data[k]
  {
    if t.inputType == "checkbox" then data[t.name := Flag(t.checked)]
    else data[t.name := Text(t.value)]
  }

  /** `Array.prototype.indexOf` and `String.prototype.indexOf` with a
      one-character pattern: the first position holding `x`, or -1. */
  function IndexOf<T(==)>(s: seq<T>, x: T): (i: int)
    ensures -1 <= i < |s|
    ensures i == -1 <==> x !in s
    ensures 0 <= i ==> s[i] == x && x !in s[..i]
  {
    if |s| == 0 then -1
    else if s[0] == x then 0
    else
      var j := IndexOf(s[1..], x);
      assert s[1..][..if j < 0 then 0 else j] == s[1..1 + if j < 0 then 0 else j];
      if j == -1 then -1 else j + 1
  }

  /** A position holding `x` with no `x` in front of it is the one
      `IndexOf` finds. */
  lemma FirstAt<T>(s: seq<T>, x: T, i: int)
    requires 0 <= i < |s| && s[i] == x && x !in s[..i]
    ensures IndexOf(s, x) == i
  {
  }

  /** The regular-expression class `\d`: an ASCII decimal digit. */
  predicate IsDigit(c: char) {
    '0' <= c <= '9'
  }

  predicate AllDigits(s: string) {
    forall i :: 0 <= i < |s| ==> IsDigit(s[i])
  }
}
