/**
 * The `/reports` and `/api/reports/data` handlers of app.py: per-user counts
 * of stored transactions whose label matches `%Legal%`, `%Illegal%` and
 * `%Suspicious%`, and their sum as the total. Whether `LIKE` ignores case is
 * the database collation's choice, so it is a parameter here.
 */
module Reports {
  import opened Text
  import opened Labels

  /** `label LIKE '%word%'` for a word without wildcards. */
  function Like(displayLabel: string, word: string, ignoreCase: bool): bool {
    if ignoreCase then Contains(Lower(displayLabel), Lower(word)) else Contains(displayLabel, word)
  }

  /** The number of stored labels that match `%word%`. */
  function CountLike(labels: seq<string>, word: string, ignoreCase: bool): (n: nat)
    ensures n <= |labels|
  {
    if labels == [] then 0
    else
      var last := |labels| - 1;
      CountLike(labels[..last], word, ignoreCase) + (if Like(labels[last], word, ignoreCase) then 1 else 0)
  }

  datatype Report = Report(legal: nat, illegal: nat, suspicious: nat, total: nat)

  /** The counts the reports page shows for one user's stored labels. */
  function ReportOf(labels: seq<string>, ignoreCase: bool): Report {
    var legal := CountLike(labels, "Legal", ignoreCase);
    var illegal := CountLike(labels, "Illegal", ignoreCase);
    var suspicious := CountLike(labels, "Suspicious", ignoreCase);
    Report(legal, illegal, suspicious, legal + illegal + suspicious)
  }

  predicate IsDisplayLabel(s: string) {
    s == LegalLabel || s == IllegalLabel || s == SuspiciousLabel
  }

  lemma LowerPatterns()
    ensures Lower("Legal") == "legal" && Lower("Illegal") == "illegal" && Lower("Suspicious") == "suspicious"
  {
  }

  /**
   * A label lacking some character of the word, in either case, never matches
   * `%word%`.
   */
  lemma NotLike(displayLabel: string, word: string, ignoreCase: bool, c: char)
    requires c in word && c !in displayLabel && LowerChar(c) !in Lower(displayLabel)
    ensures !Like(displayLabel, word, ignoreCase)
  {
    if ignoreCase {
      var i :| 0 <= i < |word| && word[i] == c;
      assert Lower(word)[i] == LowerChar(c);
      NotContains(Lower(displayLabel), Lower(word), LowerChar(c));
    } else {
      NotContains(displayLabel, word, c);
    }
  }

  /** A label starting with the word, in both cases, matches `%word%`. */
  lemma PrefixLike(displayLabel: string, word: string, ignoreCase: bool)
    requires IsPrefix(word, displayLabel) && IsPrefix(Lower(word), Lower(displayLabel))
    ensures Like(displayLabel, word, ignoreCase)
  {
  }

  lemma LegalLikeLegal(ignoreCase: bool)
    ensures Like(LegalLabel, "Legal", ignoreCase)
  {
    LowerLabels();
    LowerPatterns();
    PrefixLike(LegalLabel, "Legal", ignoreCase);
  }

  /** `Legal ✅` does not match a word with a letter it lacks in either case. */
  lemma LegalNotLike(word: string, c: char, ignoreCase: bool)
    requires c in word && c !in LegalLabel && LowerChar(c) !in "legal \U{2705}"
    ensures !Like(LegalLabel, word, ignoreCase)
  {
    LowerLabels();
    NotLike(LegalLabel, word, ignoreCase, c);
  }

  /** The patterns `Legal ✅` matches: only `%Legal%`. */
  lemma LegalLabelMatches(ignoreCase: bool)
    ensures Like(LegalLabel, "Legal", ignoreCase)
    ensures !Like(LegalLabel, "Illegal", ignoreCase) && !Like(LegalLabel, "Suspicious", ignoreCase)
  {
    LegalLikeLegal(ignoreCase);
    LegalNotLike("Illegal", 'I', ignoreCase);
    LegalNotLike("Suspicious", 'S', ignoreCase);
  }

  /** `Illegal ❌` contains "legal" in lower case, but not "Legal". */
  lemma IllegalLikeLegal(ignoreCase: bool)
    ensures Like(IllegalLabel, "Legal", ignoreCase) == ignoreCase
  {
    if ignoreCase {
      LowerLabels();
      LowerPatterns();
      assert IsPrefix("legal", Lower(IllegalLabel)[2..]);
      ContainsIff(Lower(IllegalLabel), "legal");
    } else {
      NotContains(IllegalLabel, "Legal", 'L');
    }
  }

  lemma IllegalLikeIllegal(ignoreCase: bool)
    ensures Like(IllegalLabel, "Illegal", ignoreCase)
  {
    LowerLabels();
    LowerPatterns();
    PrefixLike(IllegalLabel, "Illegal", ignoreCase);
  }

  lemma IllegalNotLikeSuspicious(ignoreCase: bool)
    ensures !Like(IllegalLabel, "Suspicious", ignoreCase)
  {
    LowerLabels();
    NotLike(IllegalLabel, "Suspicious", ignoreCase, 'S');
  }

  /** The patterns `Illegal ❌` matches: `%Illegal%`, and `%Legal%` exactly when case is ignored. */
  lemma IllegalLabelMatches(ignoreCase: bool)
    ensures Like(IllegalLabel, "Legal", ignoreCase) == ignoreCase
    ensures Like(IllegalLabel, "Illegal", ignoreCase) && !Like(IllegalLabel, "Suspicious", ignoreCase)
  {
    IllegalLikeLegal(ignoreCase);
    IllegalLikeIllegal(ignoreCase);
    IllegalNotLikeSuspicious(ignoreCase);
  }

  lemma SuspiciousLikeSuspicious(ignoreCase: bool)
    ensures Like(SuspiciousLabel, "Suspicious", ignoreCase)
  {
    LowerLabels();
    LowerPatterns();
    PrefixLike(SuspiciousLabel, "Suspicious", ignoreCase);
  }

  /** `Suspicious ⚠️` does not match a word with a letter it lacks in either case. */
  lemma SuspiciousNotLike(word: string, c: char, ignoreCase: bool)
    requires c in word && c !in SuspiciousLabel && LowerChar(c) !in "suspicious \U{26A0}\U{FE0F}"
    ensures !Like(SuspiciousLabel, word, ignoreCase)
  {
    LowerLabels();
    NotLike(SuspiciousLabel, word, ignoreCase, c);
  }

  /** The patterns `Suspicious ⚠️` matches: only `%Suspicious%`. */
  lemma SuspiciousLabelMatches(ignoreCase: bool)
    ensures Like(SuspiciousLabel, "Suspicious", ignoreCase)
    ensures !Like(SuspiciousLabel, "Legal", ignoreCase) && !Like(SuspiciousLabel, "Illegal", ignoreCase)
  {
    SuspiciousLikeSuspicious(ignoreCase);
    SuspiciousNotLike("Legal", 'L', ignoreCase);
    SuspiciousNotLike("Illegal", 'l', ignoreCase);
  }

  function Occurrences(labels: seq<string>, x: string): nat {
    multiset(labels)[x]
  }

  lemma OccurrencesSnoc(labels: seq<string>, x: string)
    requires labels != []
    ensures Occurrences(labels, x) ==
      Occurrences(labels[..|labels| - 1], x) + (if labels[|labels| - 1] == x then 1 else 0)
  {
    assert labels == labels[..|labels| - 1] + [labels[|labels| - 1]];
  }

  /** Every stored label is one of the three display labels. */
  ghost predicate AllDisplayLabels(labels: seq<string>) {
    forall i :: 0 <= i < |labels| ==> IsDisplayLabel(labels[i])
  }

  /**
   * For display labels only: `%Illegal%` and `%Suspicious%` count exactly their
   * own label; `%Legal%` counts the Legal labels, and the Illegal ones as well
   * when case is ignored.
   */
  lemma {:induction false} CountsOfDisplayLabels(labels: seq<string>, ignoreCase: bool)
    requires AllDisplayLabels(labels)
    ensures CountLike(labels, "Legal", ignoreCase) ==
      Occurrences(labels, LegalLabel) + (if ignoreCase then Occurrences(labels, IllegalLabel) else 0)
    ensures CountLike(labels, "Illegal", ignoreCase) == Occurrences(labels, IllegalLabel)
    ensures CountLike(labels, "Suspicious", ignoreCase) == Occurrences(labels, SuspiciousLabel)
    ensures |labels| == Occurrences(labels, LegalLabel) + Occurrences(labels, IllegalLabel) + Occurrences(labels, SuspiciousLabel)
  {
    if labels != [] {
      var init := labels[..|labels| - 1];
      assert AllDisplayLabels(init) by {
        forall i | 0 <= i < |init| ensures IsDisplayLabel(init[i]) { assert init[i] == labels[i]; }
      }
      CountsOfDisplayLabels(init, ignoreCase);
      OccurrencesSnoc(labels, LegalLabel);
      OccurrencesSnoc(labels, IllegalLabel);
      OccurrencesSnoc(labels, SuspiciousLabel);
      LegalLabelMatches(ignoreCase);
      IllegalLabelMatches(ignoreCase);
      SuspiciousLabelMatches(ignoreCase);
      assert IsDisplayLabel(labels[|labels| - 1]);
    }
  }

  /**
   * Under a case-sensitive collation the three counts split the display labels
   * and the total is the number of stored transactions.
   */
  lemma CaseSensitiveTotal(labels: seq<string>)
    requires AllDisplayLabels(labels)
    ensures ReportOf(labels, false).total == |labels|
  {
    CountsOfDisplayLabels(labels, false);
  }

  /**
   * Under a case-insensitive collation (MySQL's default) `%Legal%` also matches
   * `Illegal ❌`: each Illegal transaction is counted twice and the total
   * exceeds the number of stored transactions by their number.
   */
  lemma CaseInsensitiveTotal(labels: seq<string>)
    requires AllDisplayLabels(labels)
    ensures ReportOf(labels, true).legal == Occurrences(labels, LegalLabel) + Occurrences(labels, IllegalLabel)
    ensures ReportOf(labels, true).total == |labels| + Occurrences(labels, IllegalLabel)
  {
    CountsOfDisplayLabels(labels, true);
  }

  lemma ExampleOccurrences(labels: seq<string>)
    requires labels == [LegalLabel, LegalLabel, IllegalLabel]
    ensures AllDisplayLabels(labels)
    ensures Occurrences(labels, LegalLabel) == 2
    ensures Occurrences(labels, IllegalLabel) == 1
    ensures Occurrences(labels, SuspiciousLabel) == 0
  {
    assert LegalLabel != IllegalLabel && LegalLabel != SuspiciousLabel && IllegalLabel != SuspiciousLabel by {
      assert LegalLabel[0] != IllegalLabel[0] && LegalLabel[0] != SuspiciousLabel[0] && IllegalLabel[0] != SuspiciousLabel[0];
    }
    assert multiset(labels) == multiset{LegalLabel, LegalLabel, IllegalLabel};
  }

  /** Two Legal transactions and one Illegal one. */
  lemma ReportExample(labels: seq<string>)
    requires labels == [LegalLabel, LegalLabel, IllegalLabel]
    ensures ReportOf(labels, false) == Report(2, 1, 0, 3)
    ensures ReportOf(labels, true) == Report(3, 1, 0, 4)
  {
    ExampleOccurrences(labels);
    assert ReportOf(labels, false) == Report(2, 1, 0, 3) by {
      CountsOfDisplayLabels(labels, false);
    }
    assert ReportOf(labels, true) == Report(3, 1, 0, 4) by {
      CountsOfDisplayLabels(labels, true);
    }
  }
}
