/** The FAQ conversion of the store handler: a request body, seen as its
    list of (key, value) entries in enumeration order, becomes one
    {question, answer} record per entry. */
module Faqs {
  import opened Schema

  /** Each entry's key becomes the question and its value the answer. */
  function ToFaqs(entries: seq<(string, string)>): seq<Faq>
  {
    if entries == [] then [] else [Faq(entries[0].0, entries[0].1)] + ToFaqs(entries[1..])
  }

  /** The entries a FAQ list was built from: the inverse of ToFaqs. */
  function Entries(faqs: seq<Faq>): seq<(string, string)>
  {
    if faqs == [] then [] else [(faqs[0].question, faqs[0].answer)] + Entries(faqs[1..])
  }

  /** The keys of an entry list, in order. */
  function Keys(entries: seq<(string, string)>): seq<string>
  {
    if entries == [] then [] else [entries[0].0] + Keys(entries[1..])
  }

  function Questions(faqs: seq<Faq>): seq<string>
  {
    if faqs == [] then [] else [faqs[0].question] + Questions(faqs[1..])
  }

  predicate Distinct<T(==)>(s: seq<T>)
  {
    forall i, j :: 0 <= i < j < |s| ==> s[i] != s[j]
  }

  /** One record per entry, in entry order. */
  lemma {:induction false} ToFaqsAt(entries: seq<(string, string)>, k: nat)
    requires k < |entries|
    ensures |ToFaqs(entries)| == |entries|
    ensures ToFaqs(entries)[k] == Faq(entries[k].0, entries[k].1)
  {
    if k > 0 {
      ToFaqsAt(entries[1..], k - 1);
    } else if |entries| > 1 {
      ToFaqsAt(entries[1..], 0);
    }
  }

  /** Nothing is lost: the entries can be read back from the records. */
  lemma {:induction false} EntriesOfToFaqs(entries: seq<(string, string)>)
    ensures Entries(ToFaqs(entries)) == entries
  {
    if entries != [] {
      EntriesOfToFaqs(entries[1..]);
      assert ToFaqs(entries)[1..] == ToFaqs(entries[1..]);
    }
  }

  /** The questions are exactly the body's keys, in order. */
  lemma {:induction false} QuestionsAreKeys(entries: seq<(string, string)>)
    ensures Questions(ToFaqs(entries)) == Keys(entries)
  {
    if entries != [] {
      QuestionsAreKeys(entries[1..]);
      assert ToFaqs(entries)[1..] == ToFaqs(entries[1..]);
    }
  }

  /** The keys of an object are distinct, so the questions are too. */
  lemma DistinctQuestions(entries: seq<(string, string)>)
    requires Distinct(Keys(entries))
    ensures Distinct(Questions(ToFaqs(entries)))
  {
    QuestionsAreKeys(entries);
  }
}
