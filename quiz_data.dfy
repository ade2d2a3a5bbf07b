/**
 * The static question bank `quizData` of assets/quizzes/quiz-data.js.
 *
 * The prompt and the option texts of a question carry no decision logic and
 * are abstracted to the number of options; the subject titles are kept.
 */
module QuizData {

  /** One multiple-choice question: how many options it offers and which one is right. */
  datatype Question = Question(optionCount: nat, correctAnswer: nat)

  /** A subject: its display title and its ordered list of questions. */
  datatype Subject = Subject(title: string, questions: seq<Question>)

  /** A question is usable when it offers a real choice and its answer is one of its options. */
  predicate WellFormedQuestion(q: Question)
  {
    q.optionCount >= 2 && q.correctAnswer < q.optionCount
  }

  /** A subject has at least one question, and every question is well formed. */
  predicate WellFormedSubject(s: Subject)
  {
    |s.questions| >= 1 &&
    forall i :: 0 <= i < |s.questions| ==> WellFormedQuestion(s.questions[i])
  }

  /** The invariant every session command relies on. */
  predicate WellFormedBank(bank: map<string, Subject>)
  {
    forall id :: id in bank ==> WellFormedSubject(bank[id])
  }

  // The answer keys of the five subjects; every question has four options.

  const DsaQuestions: seq<Question> := [
    Question(4, 1), Question(4, 1), Question(4, 2), Question(4, 2), Question(4, 2),
    Question(4, 2), Question(4, 2), Question(4, 1), Question(4, 0), Question(4, 0)]

  const PythonQuestions: seq<Question> := [
    Question(4, 3), Question(4, 0), Question(4, 1), Question(4, 1), Question(4, 2),
    Question(4, 0), Question(4, 2), Question(4, 2), Question(4, 1), Question(4, 2)]

  const AiQuestions: seq<Question> := [
    Question(4, 2), Question(4, 1), Question(4, 3), Question(4, 1), Question(4, 2),
    Question(4, 1), Question(4, 2), Question(4, 1), Question(4, 1), Question(4, 2)]

  const DbmsQuestions: seq<Question> := [
    Question(4, 2), Question(4, 0), Question(4, 3), Question(4, 1), Question(4, 0),
    Question(4, 1), Question(4, 2), Question(4, 3), Question(4, 3), Question(4, 0)]

  const CnQuestions: seq<Question> := [
    Question(4, 1), Question(4, 2), Question(4, 1), Question(4, 1), Question(4, 1),
    Question(4, 1), Question(4, 2), Question(4, 3), Question(4, 2), Question(4, 3)]

  /** The bank, keyed by subject id. */
  const Bank: map<string, Subject> := map[
    "dsa" := Subject("Data Structures & Algorithms", DsaQuestions),
    "python" := Subject("Python Programming", PythonQuestions),
    "ai" := Subject("Artificial Intelligence", AiQuestions),
    "dbms" := Subject("Database Management Systems", DbmsQuestions),
    "cn" := Subject("Computer Networks", CnQuestions)]

  /** Every question of a list has exactly four options and an answer among them. */
  predicate FourOptionKey(qs: seq<Question>)
  {
    forall i :: 0 <= i < |qs| ==> qs[i].optionCount == 4 && qs[i].correctAnswer < 4
  }

  /** The bank holds exactly these five subjects, with these titles. */
  lemma BankSubjects()
    ensures Bank.Keys == {"dsa", "python", "ai", "dbms", "cn"}
    ensures Bank["dsa"].title == "Data Structures & Algorithms"
    ensures Bank["python"].title == "Python Programming"
    ensures Bank["ai"].title == "Artificial Intelligence"
    ensures Bank["dbms"].title == "Database Management Systems"
    ensures Bank["cn"].title == "Computer Networks"
  {
  }

  /** Every subject has exactly ten questions. */
  lemma TenQuestionsEach()
    ensures forall id :: id in Bank ==> |Bank[id].questions| == 10
  {
  }

  /** Each of the five answer keys is a list of four-option questions. */
  lemma SubjectKeysAreFourOption()
    ensures FourOptionKey(DsaQuestions) && FourOptionKey(PythonQuestions) && FourOptionKey(AiQuestions)
    ensures FourOptionKey(DbmsQuestions) && FourOptionKey(CnQuestions)
  {
  }

  /** Every question of the bank has exactly four options and its correct answer is one of them. */
  lemma FourOptionsEach()
    ensures forall id :: id in Bank ==> FourOptionKey(Bank[id].questions)
  {
    SubjectKeysAreFourOption();
  }

  /** The invariant that makes scoring well defined holds of the bank. */
  lemma BankWellFormed()
    ensures WellFormedBank(Bank)
  {
    FourOptionsEach();
    TenQuestionsEach();
  }

  /** The first data-structures question is answered by its second option. */
  lemma FirstDsaAnswer()
    ensures "dsa" in Bank && |Bank["dsa"].questions| == 10
    ensures Bank["dsa"].questions[0] == Question(4, 1)
  {
  }
}
