/** Validating a risk questionnaire and computing its risk. */
module RiskProfile {
  import opened Common
  import opened Text

  // ---------------------------------------------------------------------
  // The questionnaire
  // ---------------------------------------------------------------------

  /** An option is a plain text, or a text that may carry a risk. */
  datatype FormatOption = Plain(text: string) | Rated(text: string, risk: Option<string>)

  datatype FormatQuestion = FormatQuestion(question: string, kind: string, options: Option<seq<FormatOption>>)

  /** The format as the session publishes it: the options are only texts. */
  datatype SaneQuestion = SaneQuestion(question: string, kind: string, options: Option<seq<string>>)

  /** An answer as it arrives in JSON; an entry of a list that is no integer is `None`. */
  datatype Answer = Words(text: string) | Picks(indices: seq<Option<int>>) | Other

  datatype Question = Question(question: Option<string>, answer: Option<Answer>, risk: Option<string>)

  datatype ProfileJson = ProfileJson(
    name: Option<string>,
    rename: Option<string>,
    status: Option<string>,
    questions: Option<seq<Question>>)

  const SELECT := "select"
  const SELECT_MULTIPLE := "select-multiple"
  const STRING := "string"
  const HIGH := "High"
  const LIMITED := "Limited"
  const VALID := "Valid"
  const FORBIDDEN := "\\<>?/:;@''][=^"

  // ---------------------------------------------------------------------
  // The published format
  // ---------------------------------------------------------------------

  function Texts(options: seq<FormatOption>): seq<string> {
    seq(|options|, i requires 0 <= i < |options| => options[i].text)
  }

  function SaneOf(q: FormatQuestion): SaneQuestion {
    SaneQuestion(q.question, q.kind, if q.options.Some? then Some(Texts(q.options.value)) else None)
  }

  function Sanitised(format: seq<FormatQuestion>): seq<SaneQuestion> {
    seq(|format|, i requires 0 <= i < |format| => SaneOf(format[i]))
  }

  /** The loops of `_load_profiles` that drop the internal properties. */
  method SanitiseFormat(format: seq<FormatQuestion>) returns (sane: seq<SaneQuestion>)
    ensures sane == Sanitised(format)
  {
    sane := [];
    for i := 0 to |format|
      invariant sane == Sanitised(format)[..i]
    {
      var options := None;
      if format[i].options.Some? {
        var texts := [];
        for j := 0 to |format[i].options.value|
          invariant texts == Texts(format[i].options.value)[..j]
        {
          texts := texts + [format[i].options.value[j].text];
        }
        assert texts == Texts(format[i].options.value);
        options := Some(texts);
      }
      assert SaneQuestion(format[i].question, format[i].kind, options) == SaneOf(format[i]);
      sane := sane + [SaneQuestion(format[i].question, format[i].kind, options)];
    }
  }

  /** The first question of the format with this text. */
  function FormatOf(format: seq<FormatQuestion>, question: string): (r: Option<FormatQuestion>)
    ensures r.Some? ==> r.value in format && r.value.question == question
  {
    if format == [] then None
    else if format[0].question == question then Some(format[0])
    else FormatOf(format[1..], question)
  }

  /** The question at `j` is the first of the format with this text. */
  predicate FirstWith(format: seq<FormatQuestion>, question: string, j: nat) {
    j < |format| && format[j].question == question && forall i | 0 <= i < j :: format[i].question != question
  }

  lemma {:induction false} FormatOfFirst(format: seq<FormatQuestion>, question: string)
    ensures forall j: nat | FirstWith(format, question, j) :: FormatOf(format, question) == Some(format[j])
    ensures FormatOf(format, question).Some? <==> exists j: nat :: FirstWith(format, question, j)
    decreases |format|
  {
    if format != [] {
      var rest := format[1..];
      FormatOfFirst(rest, question);
      if format[0].question == question {
        assert FirstWith(format, question, 0);
      } else {
        forall j: nat
          ensures FirstWith(format, question, j) <==> j > 0 && FirstWith(rest, question, j - 1)
        {
          FirstLater(format, question, j);
        }
        if j: nat :| FirstWith(rest, question, j) {
          assert FirstWith(format, question, j + 1);
        }
      }
    }
  }

  lemma FirstLater(format: seq<FormatQuestion>, question: string, j: nat)
    requires format != [] && format[0].question != question
    ensures FirstWith(format, question, j) <==> j > 0 && FirstWith(format[1..], question, j - 1)
  {
    var rest := format[1..];
    assert forall i | 0 <= i < |rest| :: rest[i] == format[i + 1];
    if j > 0 && FirstWith(rest, question, j - 1) {
      forall i | 0 <= i < j ensures format[i].question != question {
        assert i > 0 ==> format[i] == rest[i - 1];
      }
    }
  }

  function SaneFormatOf(sane: seq<SaneQuestion>, question: string): Option<SaneQuestion> {
    if sane == [] then None
    else if sane[0].question == question then Some(sane[0])
    else SaneFormatOf(sane[1..], question)
  }

  /** Both formats find the same question, with as many options, in the same order. */
  lemma {:induction false} SameQuestion(format: seq<FormatQuestion>, question: string)
    ensures var a, b := FormatOf(format, question), SaneFormatOf(Sanitised(format), question);
            && (a.None? <==> b.None?)
            && (a.Some? ==> b.value == SaneOf(a.value))
    decreases |format|
  {
    if format != [] {
      assert Sanitised(format)[1..] == Sanitised(format[1..]);
      SameQuestion(format[1..], question);
    }
  }

  // ---------------------------------------------------------------------
  // Validation
  // ---------------------------------------------------------------------

  predicate NameAllowed(name: Option<string>) {
    name.Some? ==> forall c | c in name.value :: c !in FORBIDDEN
  }

  predicate PickOk(pick: Option<int>, n: nat) {
    pick.Some? && 0 <= pick.value < n
  }

  /** The rules for the answer to a recognised question. */
  function AnswerOk(answer: Option<Answer>, q: SaneQuestion, valid: bool): Result<bool> {
    if answer.None? && valid then Ok(false)
    else if (q.kind == STRING || q.kind == SELECT) && !(answer.Some? && answer.value.Words?) then Ok(false)
    else if q.kind == SELECT && valid && q.options.None? then Err(TypeError)
    else if q.kind == SELECT && valid && answer.value.text !in q.options.value then Ok(false)
    else if q.kind == SELECT_MULTIPLE then
      if !(answer.Some? && answer.value.Picks?) then Ok(false)
      else if q.options.None? then Err(TypeError)
      else Ok(forall i | 0 <= i < |answer.value.indices| :: PickOk(answer.value.indices[i], |q.options.value|))
    else Ok(true)
  }

  function QuestionOk(q: Question, sane: seq<SaneQuestion>, valid: bool): Result<bool> {
    if q.question.None? then Ok(false)
    else if |Strip(q.question.value)| == 0 then Ok(false)
    else
      var f := SaneFormatOf(sane, q.question.value);
      if f.None? then Ok(true) else AnswerOk(q.answer, f.value, valid)
  }

  /** Every question in turn, until one fails. */
  function QuestionsOk(qs: seq<Question>, sane: seq<SaneQuestion>, valid: bool): Result<bool>
    decreases |qs|
  {
    if qs == [] then Ok(true)
    else
      var ok :- QuestionOk(qs[0], sane, valid);
      if ok then QuestionsOk(qs[1..], sane, valid) else Ok(false)
  }

  function Accepts(p: ProfileJson, sane: seq<SaneQuestion>): Result<bool> {
    var valid := p.status == Some(VALID);
    if p.name.None? || |Strip(p.name.value)| == 0 then Ok(false)
    else if !NameAllowed(p.name) || !NameAllowed(p.rename) then Ok(false)
    else if p.questions.None? then (if valid then Ok(false) else Err(TypeError))
    else QuestionsOk(p.questions.value, sane, valid)
  }

  /** `validate_profile_json`, with its early returns. */
  method ValidateProfileJson(p: ProfileJson, sane: seq<SaneQuestion>) returns (r: Result<bool>)
    ensures r == Accepts(p, sane)
  {
    hide Strip;
    var valid := p.status == Some(VALID);
    if p.name.None? {
      return Ok(false);
    } else if |Strip(p.name.value)| == 0 {
      return Ok(false);
    }
    if !NameAllowed(p.name) || !NameAllowed(p.rename) {
      return Ok(false);
    }
    if p.questions.None? {
      return if valid then Ok(false) else Err(TypeError);
    }
    var qs := p.questions.value;
    var i := 0;
    while i < |qs|
      invariant 0 <= i <= |qs|
      invariant QuestionsOk(qs[i..], sane, valid) == QuestionsOk(qs, sane, valid)
    {
      assert qs[i..][1..] == qs[i + 1..];
      if qs[i].question.None? || |Strip(qs[i].question.value)| == 0 {
        return Ok(false);
      }
      var f := SaneFormatOf(sane, qs[i].question.value);
      if f.Some? {
        var ok := AnswerOk(qs[i].answer, f.value, valid);
        if ok.Err? || !ok.value {
          return ok;
        }
      }
      i := i + 1;
    }
    r := Ok(true);
  }

  lemma {:induction false} AcceptedQuestion(qs: seq<Question>, sane: seq<SaneQuestion>, valid: bool, q: Question)
    requires QuestionsOk(qs, sane, valid) == Ok(true) && q in qs
    ensures QuestionOk(q, sane, valid) == Ok(true)
    decreases |qs|
  {
    hide QuestionOk;
    if q != qs[0] {
      AcceptedQuestion(qs[1..], sane, valid, q);
    }
  }

  // ---------------------------------------------------------------------
  // What is accepted
  // ---------------------------------------------------------------------

  /** The text is not blank. */
  predicate Written(text: string) {
    exists i :: 0 <= i < |text| && !IsSpace(text[i])
  }

  lemma {:induction false} StripLeftBlank(s: string)
    ensures StripLeft(s) == "" <==> !Written(s)
    ensures StripLeft(s) != "" ==> !IsSpace(StripLeft(s)[0])
  {
    if s != "" && IsSpace(s[0]) {
      StripLeftBlank(s[1..]);
      if i :| 0 <= i < |s[1..]| && !IsSpace(s[1..][i]) {
        assert !IsSpace(s[i + 1]);
      }
      if i :| 0 < i < |s| && !IsSpace(s[i]) {
        assert !IsSpace(s[1..][i - 1]);
      }
    } else if s != "" {
      assert !IsSpace(s[0]);
    }
  }

  lemma {:induction false} StripRightKeeps(s: string)
    requires s != "" && !IsSpace(s[0])
    ensures StripRight(s) != ""
  {
    if IsSpace(s[|s| - 1]) {
      StripRightKeeps(s[..|s| - 1]);
    }
  }

  lemma StripBlank(s: string)
    ensures |Strip(s)| == 0 <==> !Written(s)
  {
    StripLeftBlank(s);
    if StripLeft(s) != "" {
      StripRightKeeps(StripLeft(s));
    }
  }

  /** The pick is the index of one of the options. */
  predicate PicksOne(options: seq<FormatOption>, pick: Option<int>) {
    pick.Some? && 0 <= pick.value < |options|
  }

  /** The rules for an answer, by the question of the original format: a Valid profile has all answers; a text
      is given where a text is asked for or one of several options; in a Valid profile that text is the text
      of an option; picks are indices of options. */
  ghost predicate Allowed(answer: Option<Answer>, f: FormatQuestion, valid: bool) {
    && (valid ==> answer.Some?)
    && (f.kind == "string" ==> answer.Some? && answer.value.Words?)
    && (f.kind == "select" ==>
          && answer.Some? && answer.value.Words?
          && (valid ==> f.options.Some? && exists k :: 0 <= k < |f.options.value| && f.options.value[k].text == answer.value.text))
    && (f.kind == "select-multiple" ==>
          && answer.Some? && answer.value.Picks? && f.options.Some?
          && forall i :: 0 <= i < |answer.value.indices| ==> PicksOne(f.options.value, answer.value.indices[i]))
  }

  lemma AnswerOkIff(answer: Option<Answer>, f: FormatQuestion, valid: bool)
    ensures AnswerOk(answer, SaneOf(f), valid) == Ok(true) <==> Allowed(answer, f, valid)
  {
    if f.options.Some? {
      var options, texts := f.options.value, Texts(f.options.value);
      assert |texts| == |options| && forall k | 0 <= k < |options| :: texts[k] == options[k].text;
      if answer.Some? && answer.value.Words? {
        assert answer.value.text in texts <==> exists k :: 0 <= k < |options| && options[k].text == answer.value.text;
      }
      if answer.Some? && answer.value.Picks? {
        forall i | 0 <= i < |answer.value.indices|
          ensures PickOk(answer.value.indices[i], |texts|) <==> PicksOne(options, answer.value.indices[i])
        {
        }
      }
    }
  }

  /** A question of the request keeps the rules: it has a text, and if that is the text of a question of the
      format, the first with it decides on the answer. */
  ghost predicate QuestionAllowed(q: Question, format: seq<FormatQuestion>, valid: bool) {
    && q.question.Some? && Written(q.question.value)
    && forall j: nat | FirstWith(format, q.question.value, j) :: Allowed(q.answer, format[j], valid)
  }

  lemma QuestionOkIff(q: Question, format: seq<FormatQuestion>, valid: bool)
    ensures QuestionOk(q, Sanitised(format), valid) == Ok(true) <==> QuestionAllowed(q, format, valid)
  {
    hide AnswerOk, Allowed, SaneFormatOf, FormatOf, Strip, Written, FirstWith, SaneOf;
    if q.question.Some? {
      var text := q.question.value;
      StripBlank(text);
      SameQuestion(format, text);
      FormatOfFirst(format, text);
      var f := FormatOf(format, text);
      if f.Some? {
        AnswerOkIff(q.answer, f.value, valid);
        var j: nat :| FirstWith(format, text, j);
        assert InFormat(format, text, j) by {
          InFormatIs(format, text, j);
        }
        assert f.value == format[j];
      }
    }
  }

  predicate InFormat(format: seq<FormatQuestion>, question: string, j: nat) {
    j < |format| && format[j].question == question
  }

  lemma InFormatIs(format: seq<FormatQuestion>, question: string, j: nat)
    requires FirstWith(format, question, j)
    ensures InFormat(format, question, j)
  {
  }

  lemma {:induction false} QuestionsOkIff(qs: seq<Question>, format: seq<FormatQuestion>, valid: bool)
    ensures QuestionsOk(qs, Sanitised(format), valid) == Ok(true) <==> forall q | q in qs :: QuestionAllowed(q, format, valid)
    decreases |qs|
  {
    hide QuestionOk, QuestionAllowed;
    if qs != [] {
      QuestionOkIff(qs[0], format, valid);
      QuestionsOkIff(qs[1..], format, valid);
      assert forall q :: q in qs <==> q == qs[0] || q in qs[1..];
    }
  }

  /** None of the characters that names may not have. */
  predicate PlainName(name: Option<string>) {
    name.Some? ==> forall c | c in name.value :: c !in "\\<>?/:;@''][=^"
  }

  /** Exactly what `validate_profile_json` accepts, in terms of the original format. */
  lemma AcceptsIff(p: ProfileJson, format: seq<FormatQuestion>)
    ensures Accepts(p, Sanitised(format)) == Ok(true) <==>
      && p.name.Some? && Written(p.name.value) && PlainName(p.name) && PlainName(p.rename)
      && p.questions.Some?
      && forall q | q in p.questions.value :: QuestionAllowed(q, format, p.status == Some("Valid"))
  {
    hide QuestionsOk, QuestionAllowed, Strip, Written;
    if p.name.Some? {
      StripBlank(p.name.value);
    }
    assert NameAllowed(p.name) <==> PlainName(p.name);
    assert NameAllowed(p.rename) <==> PlainName(p.rename);
    if p.questions.Some? {
      QuestionsOkIff(p.questions.value, format, p.status == Some(VALID));
    }
  }

  /** Validation raises, with a TypeError, only for a request without questions that does not claim to be
      Valid, or for a question of the format that lacks the options it is to have. */
  lemma ValidationRaisesOnly(p: ProfileJson, format: seq<FormatQuestion>)
    requires forall f | f in format && f.kind in {"select", "select-multiple"} :: f.options.Some?
    ensures Accepts(p, Sanitised(format)).Err? ==>
      p.questions.None? && p.status != Some("Valid") && Accepts(p, Sanitised(format)) == Err(TypeError)
  {
    hide QuestionsOk, Strip, NameAllowed;
    if p.questions.Some? {
      QuestionsNeverRaise(p.questions.value, format, p.status == Some(VALID));
    }
  }

  lemma {:induction false} QuestionsNeverRaise(qs: seq<Question>, format: seq<FormatQuestion>, valid: bool)
    requires forall f | f in format && f.kind in {"select", "select-multiple"} :: f.options.Some?
    ensures QuestionsOk(qs, Sanitised(format), valid).Ok?
    decreases |qs|
  {
    hide FormatOf, SaneFormatOf, Strip;
    if qs != [] {
      if qs[0].question.Some? {
        SameQuestion(format, qs[0].question.value);
      }
      QuestionsNeverRaise(qs[1..], format, valid);
    }
  }

  // ---------------------------------------------------------------------
  // Risk
  // ---------------------------------------------------------------------

  /** `_get_format_question_option`: plain texts are passed over. */
  function OptionOf(options: seq<FormatOption>, text: string): (r: Option<FormatOption>)
    ensures r.Some? ==> r.value in options && r.value.Rated? && r.value.text == text
  {
    if options == [] then None
    else if options[0].Rated? && options[0].text == text then Some(options[0])
    else OptionOf(options[1..], text)
  }

  /** `_get_option_from_index` */
  function OptionAt(options: seq<FormatOption>, pick: Option<int>): Option<FormatOption> {
    if pick.Some? && 0 <= pick.value < |options| then Some(options[pick.value]) else None
  }

  /** `'risk' in option and option['risk'] == 'High'`; on a plain text the first test looks for
      the word and the second raises TypeError. */
  function IsHigh(o: FormatOption): Result<bool> {
    match o
    case Rated(_, risk) => Ok(risk == Some(HIGH))
    case Plain(text) => if Contains(text, "risk") then Err(TypeError) else Ok(false)
  }

  /** Whether one of the picked options is high; an invalid index is passed over. */
  function AnyHigh(options: seq<FormatOption>, picks: seq<Option<int>>): Result<bool>
    decreases |picks|
  {
    if picks == [] then Ok(false)
    else
      var o := OptionAt(options, picks[0]);
      var here :- if o.Some? then IsHigh(o.value) else Ok(false);
      var later :- AnyHigh(options, picks[1..]);
      Ok(here || later)
  }

  /** The `risk` of a question after the first loop of `update_risk`. */
  function RiskOf(q: Question, format: seq<FormatQuestion>): Result<Option<string>> {
    if q.question.None? then Err(KeyError)
    else
      var f := FormatOf(format, q.question.value);
      if f.None? || !(f.value.kind == SELECT || f.value.kind == SELECT_MULTIPLE) then Ok(q.risk)
      else if q.answer.None? then Err(KeyError)
      else
        match q.answer.value
        case Words(text) =>
          if f.value.options.None? then Err(KeyError)
          else
            var o := OptionOf(f.value.options.value, text);
            if o.None? then Ok(q.risk)
            else
              var high :- IsHigh(o.value);
              Ok(Some(if high then HIGH else LIMITED))
        case Picks(picks) =>
          if f.value.options.None? then Err(KeyError)
          else
            var high :- AnyHigh(f.value.options.value, picks);
            Ok(Some(if high then HIGH else LIMITED))
        case Other => Ok(Some(LIMITED))
  }

  function RatedQuestions(qs: seq<Question>, format: seq<FormatQuestion>): Result<seq<Question>>
    decreases |qs|
  {
    if qs == [] then Ok([])
    else
      var risk :- RiskOf(qs[0], format);
      var rest :- RatedQuestions(qs[1..], format);
      Ok([qs[0].(risk := risk)] + rest)
  }

  predicate SomeHigh(qs: seq<Question>) {
    exists i | 0 <= i < |qs| :: qs[i].risk == Some(HIGH)
  }

  /** The first `k` questions have their risk, the others are as they were. */
  ghost predicate RatedUpTo(before: seq<Question>, after: seq<Question>, k: nat, format: seq<FormatQuestion>) {
    && |after| == |before| && k <= |before|
    && (forall i | 0 <= i < k ::
          RiskOf(before[i], format).Ok? && after[i] == before[i].(risk := RiskOf(before[i], format).value))
    && (forall i | k <= i < |before| :: after[i] == before[i])
  }

  /** The first question that raises stops the loop; those before it keep what was written. */
  ghost predicate StoppedAt(before: seq<Question>, after: seq<Question>, error: Error, format: seq<FormatQuestion>) {
    exists k: nat :: RatedUpTo(before, after, k, format) && k < |before| && RiskOf(before[k], format) == Err(error)
  }

  /** The profile whose questions and risk `update_risk` writes. */
  class RiskProfile {
    var questions: seq<Question>
    var status: string
    var risk: Option<string>

    constructor (questions: seq<Question>, status: string)
      ensures this.questions == questions && this.status == status && risk == None
    {
      this.questions, this.status, risk := questions, status, None;
    }

    /** The risk of one question: the inner loop over the picked indices. */
    method QuestionRisk(q: Question, format: seq<FormatQuestion>) returns (r: Result<Option<string>>)
      ensures r == RiskOf(q, format)
    {
      hide IsHigh, OptionOf, FormatOf;
      if q.question.None? {
        return Err(KeyError);
      }
      var f := FormatOf(format, q.question.value);
      if f.None? || !(f.value.kind == SELECT || f.value.kind == SELECT_MULTIPLE) {
        return Ok(q.risk);
      }
      if q.answer.None? {
        return Err(KeyError);
      }
      if q.answer.value.Other? {
        return Ok(Some(LIMITED));
      }
      if f.value.options.None? {
        return Err(KeyError);
      }
      var options := f.value.options.value;
      if q.answer.value.Words? {
        var o := OptionOf(options, q.answer.value.text);
        if o.None? {
          return Ok(q.risk);
        }
        var high := IsHigh(o.value);
        return if high.Err? then Err(high.error) else Ok(Some(if high.value then HIGH else LIMITED));
      }
      var picks, any, i := q.answer.value.indices, false, 0;
      while i < |picks|
        invariant 0 <= i <= |picks|
        invariant AnyHigh(options, picks).Ok? <==> AnyHigh(options, picks[i..]).Ok?
        invariant AnyHigh(options, picks).Ok? ==>
          AnyHigh(options, picks).value == (any || AnyHigh(options, picks[i..]).value)
        invariant AnyHigh(options, picks).Err? ==> AnyHigh(options, picks[i..]) == AnyHigh(options, picks)
      {
        assert picks[i..][1..] == picks[i + 1..];
        var o := OptionAt(options, picks[i]);
        if o.Some? {
          var high := IsHigh(o.value);
          if high.Err? {
            return Err(high.error);
          }
          any := any || high.value;
        }
        i := i + 1;
      }
      r := Ok(Some(if any then HIGH else LIMITED));
    }

    /** The first loop of `update_risk`: every question gets its risk, until one raises. */
    method RateAll(format: seq<FormatQuestion>) returns (r: Result<()>)
      modifies this`questions
      ensures var rated := RatedQuestions(old(questions), format);
              if rated.Ok? then r.Ok? && questions == rated.value else r == Err(rated.error)
      ensures r.Err? ==> StoppedAt(old(questions), questions, r.error, format)
    {
      hide RiskOf, RatedQuestions, Joined;
      ghost var start, done := questions, [];
      JoinedNone(start, format);
      var i := 0;
      while i < |questions|
        invariant 0 <= i == |done| <= |questions| == |start|
        invariant questions == done + start[i..]
        invariant RatedUpTo(start, questions, i, format)
        invariant Joined(done, RatedQuestions(start[i..], format)) == RatedQuestions(start, format)
      {
        var q := questions[i];
        var newRisk := QuestionRisk(q, format);
        StepRated(done, start, i, format);
        if newRisk.Err? {
          return Err(newRisk.error);
        }
        questions := questions[i := q.(risk := newRisk.value)];
        done := done + [q.(risk := newRisk.value)];
        assert questions == done + start[i + 1..];
        i := i + 1;
      }
      assert questions == done && start[i..] == [];
      EndRated(done, format);
      r := Ok(());
    }

    static ghost function Joined(done: seq<Question>, rest: Result<seq<Question>>): Result<seq<Question>> {
      if rest.Ok? then Ok(done + rest.value) else rest
    }

    static lemma JoinedNone(start: seq<Question>, format: seq<FormatQuestion>)
      ensures Joined([], RatedQuestions(start[0..], format)) == RatedQuestions(start, format)
      ensures start == [] + start[0..]
    {
      hide RatedQuestions;
      assert start[0..] == start;
      var all := RatedQuestions(start, format);
      assert all.Ok? ==> [] + all.value == all.value;
    }

    static lemma EndRated(done: seq<Question>, format: seq<FormatQuestion>)
      ensures Joined(done, RatedQuestions([], format)) == Ok(done)
    {
      assert done + [] == done;
    }

    static lemma StepRated(done: seq<Question>, start: seq<Question>, i: nat, format: seq<FormatQuestion>)
      requires i < |start|
      ensures RiskOf(start[i], format).Err? ==>
        Joined(done, RatedQuestions(start[i..], format)) == Err(RiskOf(start[i], format).error)
      ensures RiskOf(start[i], format).Ok? ==>
        Joined(done, RatedQuestions(start[i..], format))
          == Joined(done + [start[i].(risk := RiskOf(start[i], format).value)], RatedQuestions(start[i + 1..], format))
    {
      hide RiskOf;
      assert start[i..][0] == start[i] && start[i..][1..] == start[i + 1..];
      var later := RatedQuestions(start[i + 1..], format);
      if RiskOf(start[i], format).Ok? && later.Ok? {
        var rated := start[i].(risk := RiskOf(start[i], format).value);
        assert done + ([rated] + later.value) == done + [rated] + later.value;
      }
    }

    /** `update_risk`: writes the risk of every question, then the risk of the profile. */
    method UpdateRisk(format: seq<FormatQuestion>) returns (r: Result<()>)
      modifies this`questions, this`risk
      ensures status != VALID ==> r.Ok? && questions == old(questions) && risk == None
      ensures status == VALID && RatedQuestions(old(questions), format).Err? ==>
        && r == Err(RatedQuestions(old(questions), format).error) && risk == old(risk)
        && StoppedAt(old(questions), questions, r.error, format)
      ensures status == VALID && RatedQuestions(old(questions), format).Ok? ==>
        && r.Ok? && questions == RatedQuestions(old(questions), format).value
        && risk == Some(if SomeHigh(questions) then HIGH else LIMITED)
    {
      hide RatedQuestions, StoppedAt;
      if status != VALID {
        risk := None;
        return Ok(());
      }
      r := RateAll(format);
      if r.Err? {
        return;
      }
      var level, k := LIMITED, 0;
      ghost var rated := questions;
      while k < |questions|
        invariant 0 <= k <= |questions|
        invariant questions == rated
        invariant level == if SomeHigh(questions[..k]) then HIGH else LIMITED
      {
        SomeHighSnoc(questions, k);
        if questions[k].risk == Some(HIGH) {
          level := HIGH;
        }
        k := k + 1;
      }
      assert questions[..k] == questions;
      risk := Some(level);
    }
  }

  lemma SomeHighSnoc(qs: seq<Question>, k: nat)
    requires k < |qs|
    ensures SomeHigh(qs[..k + 1]) <==> SomeHigh(qs[..k]) || qs[k].risk == Some(HIGH)
  {
    assert qs[..k + 1] == qs[..k] + [qs[k]];
    if SomeHigh(qs[..k]) {
      var i :| 0 <= i < k && qs[..k][i].risk == Some(HIGH);
      assert qs[..k + 1][i].risk == Some(HIGH);
    }
    if qs[k].risk == Some(HIGH) {
      assert qs[..k + 1][k].risk == Some(HIGH);
    }
    if SomeHigh(qs[..k + 1]) {
      var i :| 0 <= i < k + 1 && qs[..k + 1][i].risk == Some(HIGH);
      if i < k {
        assert qs[..k][i].risk == Some(HIGH);
      }
    }
  }

  // ---------------------------------------------------------------------
  // What the risk means
  // ---------------------------------------------------------------------

  /** The option at `k` is the first with a risk of its own that has this text. */
  predicate FirstRated(options: seq<FormatOption>, text: string, k: nat) {
    && k < |options| && options[k].Rated? && options[k].text == text
    && forall i | 0 <= i < k :: options[i].Plain? || options[i].text != text
  }

  lemma {:induction false} OptionOfFirst(options: seq<FormatOption>, text: string)
    ensures forall k: nat | FirstRated(options, text, k) :: OptionOf(options, text) == Some(options[k])
    ensures OptionOf(options, text).Some? <==> exists k: nat :: FirstRated(options, text, k)
    decreases |options|
  {
    if options != [] {
      var rest := options[1..];
      OptionOfFirst(rest, text);
      if options[0].Rated? && options[0].text == text {
        assert FirstRated(options, text, 0);
      } else {
        forall k: nat
          ensures FirstRated(options, text, k) <==> k > 0 && FirstRated(rest, text, k - 1)
        {
          RatedLater(options, text, k);
        }
        if k: nat :| FirstRated(rest, text, k) {
          assert FirstRated(options, text, k + 1);
        }
      }
    }
  }

  lemma RatedLater(options: seq<FormatOption>, text: string, k: nat)
    requires options != [] && (options[0].Plain? || options[0].text != text)
    ensures FirstRated(options, text, k) <==> k > 0 && FirstRated(options[1..], text, k - 1)
  {
    var rest := options[1..];
    assert forall i | 0 <= i < |rest| :: rest[i] == options[i + 1];
    if k > 0 && FirstRated(rest, text, k - 1) {
      forall i | 0 <= i < k ensures options[i].Plain? || options[i].text != text {
        assert i > 0 ==> options[i] == rest[i - 1];
      }
    }
  }

  /** The pick is the index of an option whose risk is High. */
  predicate HighPick(options: seq<FormatOption>, pick: Option<int>) {
    PicksOne(options, pick) && options[pick.value].Rated? && options[pick.value].risk == Some("High")
  }

  /** The answer picks an option whose risk is High: by its text the first with a risk of its own, or by its
      index. */
  ghost predicate PicksHigh(q: Question, format: seq<FormatQuestion>) {
    && q.question.Some? && q.answer.Some?
    && exists j: nat ::
         && FirstWith(format, q.question.value, j)
         && format[j].kind in {"select", "select-multiple"} && format[j].options.Some?
         && match q.answer.value
            case Words(text) =>
              exists k: nat :: FirstRated(format[j].options.value, text, k) && format[j].options.value[k].risk == Some("High")
            case Picks(picks) =>
              exists i :: 0 <= i < |picks| && HighPick(format[j].options.value, picks[i])
            case Other => false
  }

  /** The questions `update_risk` leaves as they are: unknown, of another kind, or answered with a text that
      no option with a risk of its own has. */
  ghost predicate PassedOver(q: Question, format: seq<FormatQuestion>) {
    && q.question.Some?
    && forall j: nat | FirstWith(format, q.question.value, j) ::
         || format[j].kind !in {"select", "select-multiple"}
         || (q.answer.Some? && q.answer.value.Words? && format[j].options.Some?
             && forall k: nat :: !FirstRated(format[j].options.value, q.answer.value.text, k))
  }

  lemma {:induction false} AnyHighIff(options: seq<FormatOption>, picks: seq<Option<int>>)
    requires AnyHigh(options, picks).Ok?
    ensures AnyHigh(options, picks).value <==> exists i :: 0 <= i < |picks| && HighPick(options, picks[i])
    decreases |picks|
  {
    if picks != [] {
      AnyHighIff(options, picks[1..]);
      assert OptionAt(options, picks[0]).Some? && IsHigh(OptionAt(options, picks[0]).value) == Ok(true)
        <==> HighPick(options, picks[0]);
      hide IsHigh, OptionAt, HighPick;
      if i :| 0 <= i < |picks[1..]| && HighPick(options, picks[1..][i]) {
        assert picks[i + 1] == picks[1..][i];
      }
      if i :| 0 < i < |picks| && HighPick(options, picks[i]) {
        assert picks[i] == picks[1..][i - 1];
      }
    }
  }

  /** The written risk of a question: High exactly when its answer picks a High option; else the risk it had, if
      the update passes it over, and Limited if not. */
  lemma RiskOfIff(q: Question, format: seq<FormatQuestion>)
    requires RiskOf(q, format).Ok?
    ensures RiskOf(q, format).value ==
      if PicksHigh(q, format) then Some("High") else if PassedOver(q, format) then q.risk else Some("Limited")
  {
    hide IsHigh, FormatOf, OptionOf, HighPick, FirstWith, FirstRated;
    var text := q.question.value;
    FormatOfFirst(format, text);
    var f := FormatOf(format, text);
    if f.Some? {
      var j: nat :| FirstWith(format, text, j);
      InFormatIs(format, text, j);
      assert format[j] == f.value;
      OnlyFirst(format, text, j);
      if q.answer.Some? && f.value.options.Some? {
        var options := f.value.options.value;
        if q.answer.value.Picks? {
          if f.value.kind == SELECT || f.value.kind == SELECT_MULTIPLE {
            AnyHighIff(options, q.answer.value.indices);
          }
        } else if q.answer.value.Words? {
          RatedHigh(options, q.answer.value.text);
        }
      }
    }
  }

  lemma OnlyFirst(format: seq<FormatQuestion>, question: string, j: nat)
    requires FirstWith(format, question, j)
    ensures forall i: nat | FirstWith(format, question, i) :: i == j
  {
  }

  lemma RatedHigh(options: seq<FormatOption>, text: string)
    ensures var o := OptionOf(options, text);
      && (o.Some? <==> exists k: nat :: FirstRated(options, text, k))
      && (o.Some? ==> IsHigh(o.value).Ok?)
      && (o.Some? && IsHigh(o.value).value <==>
            exists k: nat :: FirstRated(options, text, k) && options[k].risk == Some("High"))
  {
    OptionOfFirst(options, text);
    if k: nat :| FirstRated(options, text, k) {
      assert OptionOf(options, text) == Some(options[k]);
    }
  }

  lemma {:induction false} RatedAt(qs: seq<Question>, format: seq<FormatQuestion>)
    requires RatedQuestions(qs, format).Ok?
    ensures var rs := RatedQuestions(qs, format).value;
            && |rs| == |qs|
            && forall i | 0 <= i < |qs| :: RiskOf(qs[i], format).Ok? && rs[i] == qs[i].(risk := RiskOf(qs[i], format).value)
    decreases |qs|
  {
    hide RiskOf;
    if qs != [] {
      RatedAt(qs[1..], format);
    }
  }

  /** A Valid profile is High exactly when some answer picks a high option or some question that
      the update passes over came in as High. */
  lemma ProfileRiskIff(qs: seq<Question>, format: seq<FormatQuestion>)
    requires RatedQuestions(qs, format).Ok?
    ensures SomeHigh(RatedQuestions(qs, format).value) <==>
      exists q | q in qs :: PicksHigh(q, format) || (q.risk == Some(HIGH) && PassedOver(q, format))
  {
    hide RiskOf, PicksHigh, PassedOver, RatedQuestions;
    RatedAt(qs, format);
    var rs := RatedQuestions(qs, format).value;
    forall i | 0 <= i < |qs|
      ensures rs[i].risk == Some(HIGH) <==> PicksHigh(qs[i], format) || (qs[i].risk == Some(HIGH) && PassedOver(qs[i], format))
    {
      RiskOfIff(qs[i], format);
    }
    if SomeHigh(rs) {
      var i :| 0 <= i < |rs| && rs[i].risk == Some(HIGH);
      assert qs[i] in qs;
    }
    if exists q | q in qs :: PicksHigh(q, format) || (q.risk == Some(HIGH) && PassedOver(q, format)) {
      var q :| q in qs && (PicksHigh(q, format) || (q.risk == Some(HIGH) && PassedOver(q, format)));
      var i :| 0 <= i < |qs| && qs[i] == q;
      assert rs[i].risk == Some(HIGH);
    }
  }

  /** Without risks of its own in the input, the profile is High exactly when some select or
      select-multiple answer picks a high option. */
  lemma FreshProfileRiskIff(qs: seq<Question>, format: seq<FormatQuestion>)
    requires RatedQuestions(qs, format).Ok? && forall q | q in qs :: q.risk == None
    ensures SomeHigh(RatedQuestions(qs, format).value) <==> exists q | q in qs :: PicksHigh(q, format)
  {
    hide PicksHigh, PassedOver, RatedQuestions, SomeHigh;
    ProfileRiskIff(qs, format);
  }

  /** The order of the questions does not matter, neither for whether rating succeeds nor for the risk. */
  lemma RiskIgnoresOrder(qs: seq<Question>, rs: seq<Question>, format: seq<FormatQuestion>)
    requires multiset(qs) == multiset(rs)
    ensures RatedQuestions(qs, format).Ok? <==> RatedQuestions(rs, format).Ok?
    ensures RatedQuestions(qs, format).Ok? ==>
      (SomeHigh(RatedQuestions(qs, format).value) <==> SomeHigh(RatedQuestions(rs, format).value))
  {
    hide PicksHigh, PassedOver, RatedQuestions, SomeHigh, RiskOf;
    assert forall q :: q in qs <==> q in multiset(qs);
    assert forall q :: q in rs <==> q in multiset(rs);
    RatedIff(qs, format);
    RatedIff(rs, format);
    if RatedQuestions(qs, format).Ok? {
      ProfileRiskIff(qs, format);
      ProfileRiskIff(rs, format);
    }
  }

  // ---------------------------------------------------------------------
  // Accepted profiles
  // ---------------------------------------------------------------------

  /** In an accepted profile every index of a recognised select-multiple answer has its option. */
  lemma AcceptedIndicesExist(p: ProfileJson, format: seq<FormatQuestion>, q: Question, j: nat)
    requires Accepts(p, Sanitised(format)) == Ok(true) && p.questions.Some? && q in p.questions.value
    requires q.question.Some? && FirstWith(format, q.question.value, j) && format[j].kind == "select-multiple"
    ensures q.answer.Some? && q.answer.value.Picks? && format[j].options.Some?
    ensures forall i | 0 <= i < |q.answer.value.indices| :: PicksOne(format[j].options.value, q.answer.value.indices[i])
  {
    hide FirstWith, Written, QuestionsOk;
    InFormatIs(format, q.question.value, j);
    AcceptsIff(p, format);
    assert Allowed(q.answer, format[j], p.status == Some("Valid"));
  }

  /** Rating the question raises: it is a recognised select-multiple question with a picked option on
      which the test for its risk raises, or a recognised select question without options. */
  ghost predicate Raising(q: Question, format: seq<FormatQuestion>) {
    && q.question.Some?
    && exists j: nat ::
         && FirstWith(format, q.question.value, j)
         && ((format[j].kind == "select" && format[j].options.None?)
             || (format[j].kind == "select-multiple" && format[j].options.Some?
                 && q.answer.Some? && q.answer.value.Picks?
                 && exists i | 0 <= i < |q.answer.value.indices| ::
                      PickRaises(format[j].options.value, q.answer.value.indices[i])))
  }

  /** The option picked is a plain text that spells `risk`. */
  predicate PickRaises(options: seq<FormatOption>, pick: Option<int>) {
    PicksOne(options, pick) && options[pick.value].Plain? && Contains(options[pick.value].text, "risk")
  }

  lemma {:induction false} AnyHighRaisesIff(options: seq<FormatOption>, picks: seq<Option<int>>)
    ensures AnyHigh(options, picks).Err? <==> exists i | 0 <= i < |picks| :: PickRaises(options, picks[i])
    decreases |picks|
  {
    hide Contains;
    if picks != [] {
      AnyHighRaisesIff(options, picks[1..]);
      assert OptionAt(options, picks[0]).Some? && IsHigh(OptionAt(options, picks[0]).value).Err?
        <==> PickRaises(options, picks[0]);
      hide IsHigh, OptionAt, PickRaises;
      if i :| 0 <= i < |picks[1..]| && PickRaises(options, picks[1..][i]) {
        assert picks[i + 1] == picks[1..][i];
      }
      if i :| 0 < i < |picks| && PickRaises(options, picks[i]) {
        assert picks[i] == picks[1..][i - 1];
      }
    }
  }

  lemma AcceptedRaisesIff(p: ProfileJson, format: seq<FormatQuestion>, q: Question)
    requires Accepts(p, Sanitised(format)) == Ok(true) && p.questions.Some? && q in p.questions.value
    ensures RiskOf(q, format).Err? <==> Raising(q, format)
  {
    hide FormatOf, FirstWith, FirstRated, OptionOf, QuestionsOk, Accepts, Written, IsHigh, PickRaises;
    AcceptsIff(p, format);
    assert QuestionAllowed(q, format, p.status == Some("Valid"));
    var text := q.question.value;
    FormatOfFirst(format, text);
    var f := FormatOf(format, text);
    if f.Some? {
      var j: nat :| FirstWith(format, text, j);
      InFormatIs(format, text, j);
      OnlyFirst(format, text, j);
      assert format[j] == f.value && Allowed(q.answer, format[j], p.status == Some("Valid"));
      if f.value.options.Some? {
        if f.value.kind == SELECT_MULTIPLE {
          AnyHighRaisesIff(f.value.options.value, q.answer.value.indices);
        } else if f.value.kind == SELECT {
          RatedHigh(f.value.options.value, q.answer.value.text);
        }
      }
    }
  }

  lemma {:induction false} RatedIff(qs: seq<Question>, format: seq<FormatQuestion>)
    ensures RatedQuestions(qs, format).Ok? <==> forall q | q in qs :: RiskOf(q, format).Ok?
    decreases |qs|
  {
    hide RiskOf;
    if qs != [] {
      RatedIff(qs[1..], format);
      assert forall q :: q in qs <==> q == qs[0] || q in qs[1..];
    }
  }

  /** Rating the questions of an accepted profile succeeds exactly if no question raises: no picked option
      of a select-multiple question is a plain text that spells `risk`, and no select question lacks its
      options, which can happen only if the request did not claim to be Valid. */
  lemma AcceptedProfileRatesIff(p: ProfileJson, format: seq<FormatQuestion>)
    requires Accepts(p, Sanitised(format)) == Ok(true) && p.questions.Some?
    ensures RatedQuestions(p.questions.value, format).Ok? <==>
      forall q | q in p.questions.value :: !Raising(q, format)
    ensures p.status == Some("Valid") ==>
      forall q, j: nat | q in p.questions.value && Raising(q, format) && FirstWith(format, q.question.value, j) ::
        format[j].kind == "select-multiple"
  {
    hide RiskOf, Accepts, RatedQuestions, FirstWith, PickRaises;
    forall q | q in p.questions.value
      ensures RiskOf(q, format).Err? <==> Raising(q, format)
    {
      AcceptedRaisesIff(p, format, q);
    }
    RatedIff(p.questions.value, format);
    if p.status == Some(VALID) {
      forall q, j: nat | q in p.questions.value && Raising(q, format) && FirstWith(format, q.question.value, j)
        ensures InFormat(format, q.question.value, j) && format[j].kind == "select-multiple"
      {
        ValidHasOptions(p, format, q, j);
      }
    }
  }

  lemma ValidHasOptions(p: ProfileJson, format: seq<FormatQuestion>, q: Question, j: nat)
    requires Accepts(p, Sanitised(format)) == Ok(true) && p.status == Some(VALID)
    requires p.questions.Some? && q in p.questions.value && Raising(q, format) && FirstWith(format, q.question.value, j)
    ensures InFormat(format, q.question.value, j) && format[j].kind == "select-multiple"
  {
    hide FirstWith, Accepts, Written, PickRaises;
    InFormatIs(format, q.question.value, j);
    OnlyFirst(format, q.question.value, j);
    AcceptsIff(p, format);
    assert QuestionAllowed(q, format, true);
    assert Allowed(q.answer, format[j], true);
  }

  lemma NoNameAllowed()
    ensures NameAllowed(None)
  {
  }

  /** Such a profile: it is accepted and Valid, picks the plain option `risk`, and cannot be rated. */
  lemma PlainRiskRaises(name: string, question: string)
    requires Strip(name) != "" && Strip(question) != "" && NameAllowed(Some(name))
    ensures var format := [FormatQuestion(question, SELECT_MULTIPLE, Some([Plain("risk")]))];
            var q := Question(Some(question), Some(Picks([Some(0)])), None);
            && Accepts(ProfileJson(Some(name), None, Some(VALID), Some([q])), Sanitised(format)) == Ok(true)
            && RatedQuestions([q], format) == Err(TypeError)
  {
    hide Strip, NameAllowed;
    var f := FormatQuestion(question, SELECT_MULTIPLE, Some([Plain("risk")]));
    var q := Question(Some(question), Some(Picks([Some(0)])), None);
    assert [f][1..] == [] && [q][1..] == [] && [Some(0)][1..] == [];
    assert Texts([Plain("risk")]) == ["risk"];
    assert Sanitised([f]) == [SaneOf(f)];
    assert "risk"[0..4] == "risk";
    assert MatchAt("risk", "risk", 0);
    assert Contains("risk", "risk");
    assert RiskOf(q, [f]) == Err(TypeError);
    assert QuestionOk(q, [SaneOf(f)], true) == Ok(true);
    assert QuestionsOk([q], [SaneOf(f)], true) == Ok(true);
    assert NameAllowed(None) by {
      NoNameAllowed();
    }
  }
}
