/** The two ways the operator recovers a StatefulSet name from a pod name. */
module PodNames {
  import opened Text

  function PodName(base: string, i: nat): string { base + "-" + Itoa(i) }

  /** strings.LastIndex with a one-character substring. */
  function LastIndex(s: string, c: char): (i: int)
    ensures -1 <= i < |s|
    ensures i >= 0 ==> s[i] == c
    ensures forall k | i < k < |s| :: s[k] != c
  {
    if s == "" then -1
    else if s[|s| - 1] == c then |s| - 1
    else LastIndex(s[..|s| - 1], c)
  }

  /** extractPodNamePrefix of the BackupDB controller: everything before the last dash. */
  function PodNamePrefix(podName: string): string {
    var i := LastIndex(podName, '-');
    if i == -1 then "" else podName[..i]
  }

  /** podName matches `^(.*)-\d+$` with this first group. */
  ghost predicate Matches(podName: string, group: string) {
    '\n' !in group && exists d :: d != "" && AllDigits(d) && podName == group + "-" + d
  }

  /** extractStatefulSetNameFromPod of the HA manager: the first group, or nothing. */
  function StatefulSetName(podName: string): string {
    var i := LastIndex(podName, '-');
    if i == -1 || '\n' in podName[..i] || i + 1 == |podName| || !AllDigits(podName[i + 1..]) then ""
    else podName[..i]
  }

  lemma {:induction false} DashBeforeDigits(group: string, d: string)
    requires AllDigits(d)
    ensures LastIndex(group + "-" + d, '-') == |group|
  {
    var s := group + "-" + d;
    if d == "" {
      assert s[|s| - 1] == '-';
    } else {
      assert s[|s| - 1] == d[|d| - 1] && IsDigit(d[|d| - 1]);
      assert s[..|s| - 1] == group + "-" + d[..|d| - 1];
      DashBeforeDigits(group, d[..|d| - 1]);
    }
  }

  /** The function finds the one match that there can be. */
  lemma StatefulSetNameIsMatch(podName: string, group: string)
    ensures Matches(podName, group) ==> StatefulSetName(podName) == group
    ensures StatefulSetName(podName) != "" ==> Matches(podName, StatefulSetName(podName))
  {
    if Matches(podName, group) {
      var d :| d != "" && AllDigits(d) && podName == group + "-" + d;
      DashBeforeDigits(group, d);
      assert podName[..|group|] == group && podName[|group| + 1..] == d;
    }
    if StatefulSetName(podName) != "" {
      var i := LastIndex(podName, '-');
      assert podName == podName[..i] + "-" + podName[i + 1..];
    }
  }

  /** Both parsers invert the naming of pods. */
  lemma ParsersInvertNaming(base: string, i: nat)
    requires '\n' !in base
    ensures StatefulSetName(PodName(base, i)) == base && PodNamePrefix(PodName(base, i)) == base
  {
    var s := PodName(base, i);
    DashBeforeDigits(base, Itoa(i));
    assert s[..|base|] == base && s[|base| + 1..] == Itoa(i);
  }

  /** The name is text without a line break, a dash and a number. */
  ghost predicate Numbered(podName: string) {
    exists base, d :: '\n' !in base && d != "" && AllDigits(d) && podName == base + "-" + d
  }

  /** The parsers agree exactly on the names that have no dash after their first character, and on
      those that are text without a line break, a dash and a number. In particular, whatever the
      regular expression finds, the last dash finds too. */
  lemma ParsersAgree(podName: string)
    ensures StatefulSetName(podName) != "" ==> PodNamePrefix(podName) == StatefulSetName(podName)
    ensures StatefulSetName(podName) == PodNamePrefix(podName) <==>
            (forall i | 1 <= i < |podName| :: podName[i] != '-') || Numbered(podName)
  {
    var i := LastIndex(podName, '-');
    if Numbered(podName) {
      var base, d :| '\n' !in base && d != "" && AllDigits(d) && podName == base + "-" + d;
      assert Matches(podName, base);
      StatefulSetNameIsMatch(podName, base);
      DashBeforeDigits(base, d);
      assert podName[..|base|] == base;
    } else if i >= 1 {
      if StatefulSetName(podName) != "" {
        StatefulSetNameIsMatch(podName, StatefulSetName(podName));
      }
      assert PodNamePrefix(podName) == podName[..i] != "";
    }
  }

  lemma ParsersDisagree()
    ensures StatefulSetName("ha-ms") == "" && PodNamePrefix("ha-ms") == "ha"
  {
    var s := "ha-ms";
    assert LastIndex(s, '-') == 2;
    assert !IsDigit(s[3..][0]);
    assert s[..2] == "ha";
  }
}
