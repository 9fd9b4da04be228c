/**
 * `get_reason` of app.py: a one-sentence justification chosen by keyword
 * matching on the lower-cased label and the lower-cased transaction text.
 *
 * As written, the label is first tested for the substring "legal", which also
 * occurs in "illegal"; the Illegal branch can therefore never be taken.
 * `Reason` is the function as written, `IntendedReason` the one with the
 * Illegal test first.
 */
module Reasons {
  import opened Wrappers
  import opened Text
  import opened Labels

  const VerifiedActivity: string := "This transaction appears to be a verified or authorized financial activity."
  const NoIllegalTerms: string := "No illegal or suspicious terms detected, indicating lawful activity."
  const UnlawfulKeywords: string := "Contains keywords typically associated with unlawful or fraudulent activity."
  const PolicyViolation: string := "The context suggests a violation of legal or policy standards."
  const UnusualDetails: string := "Mentions unclear or unusual transactions, indicating potentially suspicious behavior."
  const IrregularDetails: string := "The transaction details seem irregular or incomplete, raising suspicion."
  const UnableToDetermine: string := "Unable to determine a clear reason for this classification."

  const Sentences: set<string> := {
    VerifiedActivity, NoIllegalTerms, UnlawfulKeywords, PolicyViolation,
    UnusualDetails, IrregularDetails, UnableToDetermine
  }

  const LegalKeywords: seq<string> := ["salary", "credited", "approved", "completed", "authorized", "payment", "invoice"]
  const IllegalKeywords: seq<string> := ["fraud", "scam", "unauthorized", "bribe", "hack", "drugs", "theft", "fake"]
  const SuspiciousKeywords: seq<string> := ["unknown", "unusual", "multiple", "attempt", "transfer", "unclear", "risky"]

  /** `(text or "").lower()`: the text the keywords are looked for in. */
  function Subject(text: Option<string>): string {
    Lower(text.GetOr(""))
  }

  /** `any(word in subject for word in words)`. */
  function AnyIn(words: seq<string>, subject: string): bool
  {
    words != [] && (Contains(subject, words[0]) || AnyIn(words[1..], subject))
  }

  /** Some keyword of `words` is a substring of `subject`. */
  ghost predicate SomeKeywordOccurs(words: seq<string>, subject: string) {
    exists k :: 0 <= k < |words| && Occurs(words[k], subject)
  }

  lemma {:induction false} AnyInIff(words: seq<string>, subject: string)
    ensures AnyIn(words, subject) <==> SomeKeywordOccurs(words, subject)
  {
    if words != [] {
      ContainsIff(subject, words[0]);
      AnyInIff(words[1..], subject);
      if SomeKeywordOccurs(words[1..], subject) {
        var k :| 0 <= k < |words[1..]| && Occurs(words[1..][k], subject);
        assert Occurs(words[k + 1], subject);
      }
      if SomeKeywordOccurs(words, subject) && !Occurs(words[0], subject) {
        var k :| 0 <= k < |words| && Occurs(words[k], subject);
        assert Occurs(words[1..][k - 1], subject);
      }
    }
  }

  /** One label branch: the first sentence when a keyword matches, the second otherwise. */
  function Explain(subject: string, words: seq<string>, matched: string, unmatched: string): (r: string)
  {
    if AnyIn(words, subject) then matched else unmatched
  }

  /** `get_reason(text, label)` as written. */
  function Reason(text: Option<string>, displayLabel: string): (r: string)
    ensures r in Sentences
  {
    var subject := Subject(text);
    var l := Lower(displayLabel);
    if Contains(l, "legal") then Explain(subject, LegalKeywords, VerifiedActivity, NoIllegalTerms)
    else if Contains(l, "illegal") then Explain(subject, IllegalKeywords, UnlawfulKeywords, PolicyViolation)
    else if Contains(l, "suspicious") then Explain(subject, SuspiciousKeywords, UnusualDetails, IrregularDetails)
    else UnableToDetermine
  }

  /** "legal" is a substring of every text that contains "illegal". */
  lemma IllegalContainsLegal(s: string)
    requires Contains(s, "illegal")
    ensures Contains(s, "legal")
  {
    assert IsPrefix("legal", "illegal"[2..]);
    assert Occurs("legal", "illegal");
    ContainsIff("illegal", "legal");
    ContainsTransitive(s, "illegal", "legal");
  }

  /** A label containing "legal" gets the first Legal sentence exactly when a Legal keyword occurs in the text. */
  lemma LegalBranch(text: Option<string>, displayLabel: string)
    requires Contains(Lower(displayLabel), "legal")
    ensures Reason(text, displayLabel) == VerifiedActivity <==> SomeKeywordOccurs(LegalKeywords, Subject(text))
    ensures Reason(text, displayLabel) != VerifiedActivity ==> Reason(text, displayLabel) == NoIllegalTerms
  {
    AnyInIff(LegalKeywords, Subject(text));
  }

  /** The Illegal branch is dead: neither of its sentences is ever returned. */
  lemma IllegalBranchUnreachable(text: Option<string>, displayLabel: string)
    ensures Reason(text, displayLabel) != UnlawfulKeywords
    ensures Reason(text, displayLabel) != PolicyViolation
  {
    if Contains(Lower(displayLabel), "illegal") {
      IllegalContainsLegal(Lower(displayLabel));
    }
  }

  /**
   * A label containing "suspicious" but not "legal" gets the first Suspicious
   * sentence exactly when a Suspicious keyword occurs in the text.
   */
  lemma SuspiciousBranch(text: Option<string>, displayLabel: string)
    requires !Contains(Lower(displayLabel), "legal") && Contains(Lower(displayLabel), "suspicious")
    ensures Reason(text, displayLabel) == UnusualDetails <==> SomeKeywordOccurs(SuspiciousKeywords, Subject(text))
    ensures Reason(text, displayLabel) != UnusualDetails ==> Reason(text, displayLabel) == IrregularDetails
  {
    AnyInIff(SuspiciousKeywords, Subject(text));
    if Contains(Lower(displayLabel), "illegal") {
      IllegalContainsLegal(Lower(displayLabel));
    }
  }

  /** The fallback sentence comes back exactly for labels containing neither "legal" nor "suspicious". */
  lemma FallbackIff(text: Option<string>, displayLabel: string)
    ensures Reason(text, displayLabel) == UnableToDetermine <==>
      !Contains(Lower(displayLabel), "legal") && !Contains(Lower(displayLabel), "suspicious")
  {
    if Contains(Lower(displayLabel), "illegal") {
      IllegalContainsLegal(Lower(displayLabel));
    }
  }

  lemma ShorterNeverContains(hay: string, needle: string)
    requires |hay| < |needle|
    ensures !Contains(hay, needle)
  {
    ContainsIff(hay, needle);
  }

  /** Every Illegal ❌ label is explained with a Legal sentence. */
  lemma IllegalLabelGetsLegalReason(text: Option<string>)
    ensures Reason(text, IllegalLabel) in {VerifiedActivity, NoIllegalTerms}
    ensures Reason(Some("fraud"), IllegalLabel) == NoIllegalTerms
  {
    LowerLabels();
    IllegalContainsLegal(Lower(IllegalLabel));
    var subject := Subject(Some("fraud"));
    assert subject == "fraud";
    forall k | 0 <= k < |LegalKeywords| ensures !Occurs(LegalKeywords[k], subject) {
      ShorterNeverContains(subject, LegalKeywords[k]);
      ContainsIff(subject, LegalKeywords[k]);
    }
    AnyInIff(LegalKeywords, subject);
  }

  /** A keyword at the start of the text matches. */
  lemma SalaryExample()
    ensures Reason(Some("salary credited"), LegalLabel) == VerifiedActivity
  {
    LowerLabels();
    assert Contains(Lower(LegalLabel), "legal");
    assert Subject(Some("salary credited")) == "salary credited";
    assert IsPrefix("salary", "salary credited"[0..]);
    assert Occurs(LegalKeywords[0], "salary credited");
    LegalBranch(Some("salary credited"), LegalLabel);
  }

  /** Keywords match as substrings of the lower-cased text: "PAYMENTS" matches "payment". */
  lemma PaymentsExample()
    ensures Reason(Some("Monthly PAYMENTS"), LegalLabel) == VerifiedActivity
  {
    LowerLabels();
    assert Contains(Lower(LegalLabel), "legal");
    assert Subject(Some("Monthly PAYMENTS")) == "monthly payments";
    assert IsPrefix("payment", "monthly payments"[8..]);
    assert Occurs(LegalKeywords[5], "monthly payments");
    LegalBranch(Some("Monthly PAYMENTS"), LegalLabel);
  }

  /** None of the Legal keywords' first letters occurs in "weekly rent". */
  lemma RentLacksKeywordInitials()
    ensures forall k :: 0 <= k < |LegalKeywords| ==> LegalKeywords[k] != [] && LegalKeywords[k][0] !in "weekly rent"
  {
  }

  lemma NoLegalKeywordInRent()
    ensures !SomeKeywordOccurs(LegalKeywords, "weekly rent")
  {
    RentLacksKeywordInitials();
    forall k | 0 <= k < |LegalKeywords| ensures !Occurs(LegalKeywords[k], "weekly rent") {
      NotOccurs("weekly rent", LegalKeywords[k], LegalKeywords[k][0]);
    }
  }

  lemma NoKeywordExample()
    ensures Reason(Some("Weekly rent"), LegalLabel) == NoIllegalTerms
  {
    LowerLabels();
    assert Contains(Lower(LegalLabel), "legal");
    assert Subject(Some("Weekly rent")) == "weekly rent";
    NoLegalKeywordInRent();
    LegalBranch(Some("Weekly rent"), LegalLabel);
  }

  lemma UnknownLabelLower()
    ensures Lower("Unknown ???") == "unknown ???"
  {
  }

  /** "Unknown ???" in lower case lacks a character of `needle`, so it does not contain it. */
  lemma UnknownLabelLacks(needle: string, c: char)
    requires c in needle && c !in "unknown ???"
    ensures !Contains(Lower("Unknown ???"), needle)
  {
    UnknownLabelLower();
    NotContains("unknown ???", needle, c);
  }

  /** A label outside the vocabulary gets the fallback sentence, whatever the text. */
  lemma FallbackExample(text: Option<string>)
    ensures Reason(text, "Unknown ???") == UnableToDetermine
  {
    assert !Contains(Lower("Unknown ???"), "legal") by {
      UnknownLabelLacks("legal", 'l');
    }
    assert !Contains(Lower("Unknown ???"), "suspicious") by {
      UnknownLabelLacks("suspicious", 's');
    }
    FallbackIff(text, "Unknown ???");
  }

  /** `get_reason` with the Illegal test placed before the Legal test. */
  function IntendedReason(text: Option<string>, displayLabel: string): (r: string)
    ensures r in Sentences
  {
    var subject := Subject(text);
    var l := Lower(displayLabel);
    if Contains(l, "illegal") then Explain(subject, IllegalKeywords, UnlawfulKeywords, PolicyViolation)
    else if Contains(l, "legal") then Explain(subject, LegalKeywords, VerifiedActivity, NoIllegalTerms)
    else if Contains(l, "suspicious") then Explain(subject, SuspiciousKeywords, UnusualDetails, IrregularDetails)
    else UnableToDetermine
  }

  /**
   * With the Illegal test first, a label containing "illegal" gets the first
   * Illegal sentence exactly when an Illegal keyword occurs, the second otherwise.
   */
  lemma IntendedIllegalReason(text: Option<string>, displayLabel: string)
    requires Contains(Lower(displayLabel), "illegal")
    ensures IntendedReason(text, displayLabel) == UnlawfulKeywords <==> SomeKeywordOccurs(IllegalKeywords, Subject(text))
    ensures IntendedReason(text, displayLabel) in {UnlawfulKeywords, PolicyViolation}
  {
    AnyInIff(IllegalKeywords, Subject(text));
  }

  /** On every label that does not contain "illegal" the two functions agree. */
  lemma IntendedAgreesElsewhere(text: Option<string>, displayLabel: string)
    requires !Contains(Lower(displayLabel), "illegal")
    ensures IntendedReason(text, displayLabel) == Reason(text, displayLabel)
  {
  }

  /** The mapped Illegal ❌ label now gets an Illegal sentence. */
  lemma IntendedIllegalExample()
    ensures IntendedReason(Some("fraud"), IllegalLabel) == UnlawfulKeywords
    ensures IntendedReason(Some("fraud"), IllegalLabel) != Reason(Some("fraud"), IllegalLabel)
  {
    LowerLabels();
    assert Contains(Lower(IllegalLabel), "illegal");
    assert Contains(Subject(Some("fraud")), "fraud");
    IllegalLabelGetsLegalReason(Some("fraud"));
  }
}
