/** The question editor: a text box whose value is added to the question list
    on Enter or comma, and remove buttons on the listed questions
    (src/components/QuestionInput.tsx). */
module QuestionInput {
  import opened Seqs
  import opened Strings

  /** The list the editor shows and emits, and the text box contents. */
  datatype Editor = Editor(questions: seq<string>, input: string)

  /** The keys that submit the text box. */
  predicate IsSubmitKey(key: string)
  {
    key == "Enter" || key == ","
  }

  /** A question may be added when it is non-empty and not listed yet. */
  predicate Addable(questions: seq<string>, q: string)
  {
    q != "" && q !in questions
  }

  /** `handleKeyDown`: a submit key adds the trimmed text and clears the box. */
  function KeyDown(e: Editor, key: string): Editor
  {
    var trimmed := Trim(e.input);
    if IsSubmitKey(key) && Addable(e.questions, trimmed) then Editor(e.questions + [trimmed], "")
    else e
  }

  /** `handleInputChange`: the box takes the typed value; when it holds a comma
      and its trimmed first part can be added, that part is added and the box
      keeps the other parts, rejoined and trimmed. */
  function InputChange(e: Editor, value: string): Editor
  {
    if ',' in value then
      var parts := Split(value, ',');
      var first := Trim(parts[0]);
      if Addable(e.questions, first) then Editor(e.questions + [first], Trim(Join(parts[1..], ',')))
      else Editor(e.questions, value)
    else Editor(e.questions, value)
  }

  /** `handleRemoveQuestion`. */
  function RemoveQuestion(questions: seq<string>, q: string): seq<string>
  {
    Filter(questions, x => x != q)
  }

  // ----- what each event does -----

  /** A submit key with addable trimmed text appends it at the end and clears
      the box; any other key, or text that is empty or already listed after
      trimming, changes nothing. */
  lemma KeyDownSpec(e: Editor, key: string)
    ensures IsSubmitKey(key) && Trim(e.input) != "" && Trim(e.input) !in e.questions ==>
              KeyDown(e, key) == Editor(e.questions + [Trim(e.input)], "")
    ensures !IsSubmitKey(key) || Trim(e.input) == "" || Trim(e.input) in e.questions ==>
              KeyDown(e, key) == e
  {
  }

  /** A typed value holding a comma adds the trimmed text before its first comma
      when that can be added, and the box then holds the trimmed text after that
      comma; otherwise the list is unchanged and the box holds the value typed. */
  lemma InputChangeSpec(e: Editor, value: string)
    ensures var e' := InputChange(e, value);
      if ',' in value && Addable(e.questions, Trim(value[..IndexOf(value, ',')])) then
        e'.questions == e.questions + [Trim(value[..IndexOf(value, ',')])]
        && e'.input == Trim(value[IndexOf(value, ',') + 1..])
      else e' == Editor(e.questions, value)
  {
    if ',' in value {
      SplitAtFirst(value, ',');
    }
  }

  /** Removing deletes every copy of the question and keeps the others in order. */
  lemma RemoveQuestionSpec(questions: seq<string>, q: string)
    ensures q !in RemoveQuestion(questions, q)
    ensures IsSubsequence(RemoveQuestion(questions, q), questions)
    ensures forall x :: x in questions && x != q ==> x in RemoveQuestion(questions, q)
    ensures forall x :: multiset(RemoveQuestion(questions, q))[x] == if x == q then 0 else multiset(questions)[x]
  {
    FilterIsSubsequence(questions, x => x != q);
    FilterMultiset(questions, x => x != q);
  }

  // ----- the list stays clean -----

  /** Every question is non-empty, has no surrounding whitespace, and occurs once. */
  predicate CleanList(questions: seq<string>)
  {
    (forall i :: 0 <= i < |questions| ==> questions[i] != "" && Trim(questions[i]) == questions[i])
    && Distinct(questions)
  }

  /** Trimming twice is trimming once. */
  lemma TrimIdempotent(s: string)
    ensures Trim(Trim(s)) == Trim(s)
  {
    StripFixed(Trim(s), IsJsSpace);
  }

  /** Appending an addable trimmed question keeps the list clean. */
  lemma AppendClean(questions: seq<string>, q: string)
    requires CleanList(questions) && Addable(questions, Trim(q))
    ensures CleanList(questions + [Trim(q)])
  {
    TrimIdempotent(q);
    var r := questions + [Trim(q)];
    forall i, j | 0 <= i < j < |r| ensures r[i] != r[j] {
      if j == |questions| {
        assert r[i] in questions;
      }
    }
  }

  /** Neither add path puts an empty, untrimmed or duplicate entry in a clean list. */
  lemma KeyDownKeepsClean(e: Editor, key: string)
    requires CleanList(e.questions)
    ensures CleanList(KeyDown(e, key).questions)
  {
    if IsSubmitKey(key) && Addable(e.questions, Trim(e.input)) {
      AppendClean(e.questions, e.input);
    }
  }

  lemma InputChangeKeepsClean(e: Editor, value: string)
    requires CleanList(e.questions)
    ensures CleanList(InputChange(e, value).questions)
  {
    if ',' in value {
      var first := Split(value, ',')[0];
      if Addable(e.questions, Trim(first)) {
        AppendClean(e.questions, first);
      }
    }
  }

  lemma RemoveKeepsClean(questions: seq<string>, q: string)
    requires CleanList(questions)
    ensures CleanList(RemoveQuestion(questions, q))
  {
    FilterDistinct(questions, x => x != q);
  }

  /** Removing a question that was just added restores the list. */
  lemma AddThenRemove(questions: seq<string>, q: string)
    requires q !in questions
    ensures RemoveQuestion(questions + [q], q) == questions
  {
    FilterAppend(questions, [q], x => x != q);
    FilterIdentity(questions, x => x != q);
  }

  /** The editor as the component holds it: the question list it emits and
      the `inputValue` state. */
  class QuestionBox {
    var questions: seq<string>
    var inputValue: string

    constructor (questions: seq<string>)
      ensures this.questions == questions && inputValue == ""
    {
      this.questions := questions;
      inputValue := "";
    }

    function State(): Editor
      reads this
    {
      Editor(questions, inputValue)
    }

    method HandleKeyDown(key: string)
      modifies this
      ensures State() == KeyDown(old(State()), key)
      ensures CleanList(old(questions)) ==> CleanList(questions)
    {
      if CleanList(questions) {
        KeyDownKeepsClean(State(), key);
      }
      if key == "Enter" || key == "," {
        var trimmedValue := Trim(inputValue);
        if trimmedValue != "" && trimmedValue !in questions {
          questions := questions + [trimmedValue];
          inputValue := "";
        }
      }
    }

    method HandleInputChange(value: string)
      modifies this
      ensures State() == InputChange(old(State()), value)
      ensures CleanList(old(questions)) ==> CleanList(questions)
    {
      if CleanList(questions) {
        InputChangeKeepsClean(State(), value);
      }
      inputValue := value;
      if ',' in value {
        var parts := Split(value, ',');
        var newQuestion := Trim(parts[0]);
        if newQuestion != "" && newQuestion !in questions {
          questions := questions + [newQuestion];
          inputValue := Trim(Join(parts[1..], ','));
        }
      }
    }

    method HandleRemoveQuestion(q: string)
      modifies this
      ensures questions == RemoveQuestion(old(questions), q)
      ensures inputValue == old(inputValue)
      ensures CleanList(old(questions)) ==> CleanList(questions)
    {
      if CleanList(questions) {
        RemoveKeepsClean(questions, q);
      }
      questions := Filter(questions, x => x != q);
    }
  }
}
