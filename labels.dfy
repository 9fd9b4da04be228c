/**
 * The label table of app.py: the classifier's raw tokens and the display labels
 * they stand for. A token is looked up by its upper-case form; a token missing
 * from the table is shown as it came, in its original case.
 */
module Labels {
  import opened Text

  const LegalLabel: string := "Legal \U{2705}"
  const IllegalLabel: string := "Illegal \U{274C}"
  const SuspiciousLabel: string := "Suspicious \U{26A0}\U{FE0F}"

  /** Raw classifier token (upper case) to display label. */
  const LabelTable: map<string, string> := map[
    "LABEL_0" := LegalLabel,
    "LABEL_1" := IllegalLabel,
    "LABEL_2" := SuspiciousLabel
  ]

  /** The display labels in lower case, as the reason logic and a case-blind collation see them. */
  lemma LowerLabels()
    ensures Lower(LegalLabel) == "legal \U{2705}"
    ensures Lower(IllegalLabel) == "illegal \U{274C}"
    ensures Lower(SuspiciousLabel) == "suspicious \U{26A0}\U{FE0F}"
  {
  }

  /** `label_map.get(raw_label.upper(), raw_label)`. */
  function MapLabel(raw: string): string
  {
    var key := Upper(raw);
    if key in LabelTable then LabelTable[key] else raw
  }

  lemma UpperDisplayLabelsAreNotTokens()
    ensures Upper(LegalLabel) !in LabelTable
    ensures Upper(IllegalLabel) !in LabelTable
    ensures Upper(SuspiciousLabel) !in LabelTable
  {
    assert Upper(LegalLabel)[0] == 'L' && Upper(LegalLabel)[1] == 'E';
    assert Upper(IllegalLabel)[0] == 'I';
    assert Upper(SuspiciousLabel)[0] == 'S';
  }

  /**
   * The display label is one of the three table entries, or the raw token
   * itself; it is the raw token exactly when the token's upper-case form is not
   * a table key.
   */
  lemma MapLabelRange(raw: string)
    ensures MapLabel(raw) in LabelTable.Values || MapLabel(raw) == raw
    ensures MapLabel(raw) == raw <==> Upper(raw) !in LabelTable
  {
    if Upper(raw) in LabelTable {
      // every key has 'A' second, which no display label has
      assert UpperChar(raw[1]) == 'A';
      assert MapLabel(raw)[1] != 'a' && MapLabel(raw)[1] != 'A';
    }
  }

  /** Mapping an already mapped label changes nothing. */
  lemma MapLabelIdempotent(raw: string)
    ensures MapLabel(MapLabel(raw)) == MapLabel(raw)
  {
    UpperDisplayLabelsAreNotTokens();
  }

  /**
   * Exactly the case variants of `LABEL_1` and the text `Illegal ❌` itself
   * (an unknown token, passed through) are shown as `Illegal ❌`.
   */
  lemma ShownIllegalIff(raw: string)
    ensures MapLabel(raw) == IllegalLabel <==> Upper(raw) == "LABEL_1" || raw == IllegalLabel
  {
    UpperDisplayLabelsAreNotTokens();
  }

  /** Lookup ignores case for the known tokens. */
  lemma MapLabelExamples()
    ensures MapLabel("label_0") == MapLabel("LABEL_0") == LegalLabel
    ensures MapLabel("label_1") == MapLabel("Label_1") == IllegalLabel
    ensures MapLabel("LABEL_2") == SuspiciousLabel
    ensures MapLabel("other") == "other"
  {
    assert Upper("label_0") == "LABEL_0" == Upper("LABEL_0");
    assert Upper("LABEL_2") == "LABEL_2";
    assert Upper("label_1") == "LABEL_1";
    assert Upper("Label_1") == "LABEL_1";
    assert Upper("other") == "OTHER";
  }
}
