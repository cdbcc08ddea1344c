/** The FAQ browser: category tabs, an accordion whose open/closed state is
    kept per question key, and the "ask a question" form with its simulated
    submission. */
module Faq {
  import opened Forms

  // ---------------------------------------------------------------------
  // Question keys: `${activeCategory}-${index}`.

  function Digit(d: nat): char
    requires d < 10
  {
    ('0' as int + d) as char
  }

  function DigitValue(c: char): nat
    requires IsDigit(c)
  {
    c as int - '0' as int
  }

  /** How a template literal writes a non-negative integer: decimal digits
      without leading zeros. */
  function Decimal(n: nat): (r: string)
    ensures r != [] && AllDigits(r)
    ensures n > 0 ==> r[0] != '0'
  {
    if n < 10 then [Digit(n)] else Decimal(n / 10) + [Digit(n % 10)]
  }

  /** Reading decimal digits back as a number. */
  function ParseDecimal(s: string): nat
    requires AllDigits(s)
  {
    if s == [] then 0 else 10 * ParseDecimal(s[..|s| - 1]) + DigitValue(s[|s| - 1])
  }

  lemma {:induction false} ParseDecimalOfDecimal(n: nat)
    ensures ParseDecimal(Decimal(n)) == n
  {
    if n >= 10 {
      ParseDecimalOfDecimal(n / 10);
      var s := Decimal(n);
      assert s[..|s| - 1] == Decimal(n / 10);
    }
  }

  /** Distinct indexes are written differently. */
  lemma DecimalInjective(m: nat, n: nat)
    ensures Decimal(m) == Decimal(n) <==> m == n
  {
    ParseDecimalOfDecimal(m);
    ParseDecimalOfDecimal(n);
  }

  /** The accordion key of question `index` in category `category`: the
      category, a dash, then the index in decimal digits. */
  function QuestionId(category: string, index: nat): (r: string)
    ensures |r| > |category| + 1
    ensures r[..|category|] == category && r[|category|] == '-'
    ensures AllDigits(r[|category| + 1..])
  {
    var r := category + "-" + Decimal(index);
    assert r[|category| + 1..] == Decimal(index);
    r
  }

  /** In a key built from a category without `-`, the first `-` sits right
      after the category. */
  lemma DashAfterCategory(category: string, index: nat)
    requires '-' !in category
    ensures IndexOf(QuestionId(category, index), '-') == |category|
  {
    var s := QuestionId(category, index);
    assert s[|category|] == '-';
  }

  /** As long as category ids contain no `-`, two questions share a key
      exactly when they are the same question of the same category. */
  lemma QuestionIdInjective(c1: string, i1: nat, c2: string, i2: nat)
    requires '-' !in c1 && '-' !in c2
    ensures QuestionId(c1, i1) == QuestionId(c2, i2) <==> c1 == c2 && i1 == i2
  {
    if QuestionId(c1, i1) == QuestionId(c2, i2) {
      var s := QuestionId(c1, i1);
      DashAfterCategory(c1, i1);
      DashAfterCategory(c2, i2);
      assert c1 == s[..|c1|] == c2;
      assert Decimal(i1) == s[|c1| + 1..] == Decimal(i2);
      DecimalInjective(i1, i2);
    }
  }

  /** The categories of the page, each with the number of its questions. */
  datatype Category = Category(id: string, questionCount: nat)

  const Categories: seq<Category> := [
    Category("general", 5), Category("events", 5),
    Category("volunteer", 4), Category("legal", 4)]

  /** A category id offered by one of the page's tabs. */
  predicate IsCategory(id: string) {
    exists j :: 0 <= j < |Categories| && Categories[j].id == id
  }

  lemma CategoriesHaveNoDash(id: string)
    requires IsCategory(id)
    ensures '-' !in id
  {
  }

  /** Every question on the page has its own key. */
  lemma PageKeysDistinct(j1: nat, q1: nat, j2: nat, q2: nat)
    requires j1 < |Categories| && q1 < Categories[j1].questionCount
    requires j2 < |Categories| && q2 < Categories[j2].questionCount
    ensures QuestionId(Categories[j1].id, q1) == QuestionId(Categories[j2].id, q2)
        <==> j1 == j2 && q1 == q2
  {
    assert forall j :: 0 <= j < |Categories| ==> '-' !in Categories[j].id;
    QuestionIdInjective(Categories[j1].id, q1, Categories[j2].id, q2);
  }

  // ---------------------------------------------------------------------
  // Accordion state: `openQuestions`, a record from key to boolean.

  /** A question is open when its key holds `true`; a missing key reads as
      `undefined` and the question is closed. */
  predicate IsOpen(open: map<string, bool>, id: string) {
    id in open && open[id]
  }

  /** `toggleQuestion(id)`: the key is set to the negation of its old value,
      a missing key counting as false. Every other key is left alone. */
  function Toggled(open: map<string, bool>, id: string): (r: map<string, bool>)
    ensures IsOpen(r, id) <==> !IsOpen(open, id)
    ensures r.Keys == open.Keys + {id}
    ensures forall k :: k in open && k != id ==> r[k] == open[k]
  {
    open[id := !IsOpen(open, id)]
  }

  /** Toggling twice restores the open/closed state; when the key was
      already present it restores the record itself. */
  lemma ToggleTwice(open: map<string, bool>, id: string)
    ensures IsOpen(Toggled(Toggled(open, id), id), id) == IsOpen(open, id)
    ensures id in open ==> Toggled(Toggled(open, id), id) == open
  {
  }

  /** Opening or closing one question never opens or closes another. */
  lemma ToggleIsLocal(open: map<string, bool>, c1: string, i1: nat, c2: string, i2: nat)
    requires '-' !in c1 && '-' !in c2
    requires c1 != c2 || i1 != i2
    ensures IsOpen(Toggled(open, QuestionId(c1, i1)), QuestionId(c2, i2))
        == IsOpen(open, QuestionId(c2, i2))
  {
    QuestionIdInjective(c1, i1, c2, i2);
  }

  // ---------------------------------------------------------------------
  // The page's state.

  const BlankQuestion: map<string, string> := map["name" := "", "email" := "", "question" := ""]

  /** `pending` counts the completion callbacks a submit has scheduled and
      that have not run yet. */
  class FaqPage {
    var activeCategory: string
    var openQuestions: map<string, bool>
    var formData: map<string, string>
    var isSubmitting: bool
    var isSubmitted: bool
    ghost var pending: nat

    ghost predicate Valid()
      reads this
    {
      && IsCategory(activeCategory)
      && pending <= 1
      && (pending == 1 <==> isSubmitting)
      && !(isSubmitting && isSubmitted)
    }

    constructor ()
      ensures Valid()
      ensures activeCategory == "general" && openQuestions == map[]
      ensures formData == BlankQuestion && !isSubmitting && !isSubmitted && pending == 0
    {
      assert Categories[0].id == "general";
      activeCategory := "general";
      openQuestions := map[];
      formData := BlankQuestion;
      isSubmitting := false;
      isSubmitted := false;
      pending := 0;
    }

    /** A category tab: only the active category changes; which questions
        are open is kept, so a question opened earlier is still open when
        its category is shown again. */
    method SelectCategory(id: string)
      requires Valid() && IsCategory(id)
      modifies this
      ensures Valid()
      ensures activeCategory == id && openQuestions == old(openQuestions)
      ensures formData == old(formData) && isSubmitting == old(isSubmitting)
      ensures isSubmitted == old(isSubmitted) && pending == old(pending)
    {
      activeCategory := id;
    }

    /** Whether question `index` of the active category shows its answer. */
    function AnswerShown(index: nat): bool
      reads this
    {
      IsOpen(openQuestions, QuestionId(activeCategory, index))
    }

    method ToggleQuestion(questionId: string)
      requires Valid()
      modifies this
      ensures Valid()
      ensures openQuestions == Toggled(old(openQuestions), questionId)
      ensures activeCategory == old(activeCategory) && formData == old(formData)
      ensures isSubmitting == old(isSubmitting) && isSubmitted == old(isSubmitted)
      ensures pending == old(pending)
    {
      openQuestions := Toggled(openQuestions, questionId);
    }

    /** A click on question `index` of the shown category toggles the key
        built from the category and the index: that answer is shown or
        hidden, and every other answer stays as it was. */
    method ClickQuestion(index: nat)
      requires Valid()
      modifies this
      ensures Valid()
      ensures AnswerShown(index) == !old(AnswerShown(index))
      ensures forall j: nat :: j != index ==> AnswerShown(j) == old(AnswerShown(j))
      ensures openQuestions == Toggled(old(openQuestions), QuestionId(activeCategory, index))
      ensures activeCategory == old(activeCategory) && formData == old(formData)
      ensures isSubmitting == old(isSubmitting) && isSubmitted == old(isSubmitted)
      ensures pending == old(pending)
    {
      var questionId := QuestionId(activeCategory, index);
      CategoriesHaveNoDash(activeCategory);
      forall j: nat | j != index
        ensures IsOpen(Toggled(openQuestions, questionId), QuestionId(activeCategory, j))
             == IsOpen(openQuestions, QuestionId(activeCategory, j))
      {
        ToggleIsLocal(openQuestions, activeCategory, index, activeCategory, j);
      }
      ToggleQuestion(questionId);
    }

    /** `handleChange`: only the named field changes. */
    method HandleChange(name: string, value: string)
      requires Valid()
      modifies this
      ensures Valid()
      ensures formData == old(formData)[name := value]
      ensures activeCategory == old(activeCategory) && openQuestions == old(openQuestions)
      ensures isSubmitting == old(isSubmitting) && isSubmitted == old(isSubmitted)
      ensures pending == old(pending)
    {
      formData := formData[name := value];
    }

    /** `handleSubmit`: starts the simulated submission. The form is shown
        only while not submitted and its button is disabled while
        submitting. */
    method HandleSubmit()
      requires Valid()
      requires !isSubmitting && !isSubmitted
      modifies this
      ensures Valid()
      ensures isSubmitting && !isSubmitted && pending == 1
      ensures formData == old(formData) && openQuestions == old(openQuestions)
      ensures activeCategory == old(activeCategory)
    {
      isSubmitting := true;
      pending := pending + 1;
    }

    /** The body of the `setTimeout` callback: the submission ends, the
        thank-you panel shows and the form is cleared. */
    method CompleteSubmission()
      requires Valid()
      requires pending > 0
      modifies this
      ensures Valid()
      ensures !isSubmitting && isSubmitted && pending == 0
      ensures formData == BlankQuestion
      ensures openQuestions == old(openQuestions) && activeCategory == old(activeCategory)
    {
      isSubmitting := false;
      isSubmitted := true;
      formData := BlankQuestion;
      pending := pending - 1;
    }

    /** "Ask Another Question": back to the form; nothing else changes. */
    method AskAnother()
      requires Valid()
      modifies this
      ensures Valid()
      ensures !isSubmitted
      ensures isSubmitting == old(isSubmitting) && pending == old(pending)
      ensures formData == old(formData) && openQuestions == old(openQuestions)
      ensures activeCategory == old(activeCategory)
    {
      isSubmitted := false;
    }
  }
}
