/**
 * The checkbox rewrite shared by `toggleCheckbox` (src/extension-obsidian.js)
 * and `toggleCheckboxAtLine` (src/extension-obsidian-backup.js): the first
 * "- [ ]" of the line becomes "- [x]"; failing that, the first "- [x]" or
 * "- [X]" becomes "- [ ]"; a line with neither is left alone.
 */
module Checkbox {
  import opened Text

  const UNCHECKED: Str := [DASH, SPACE, LBRACKET, SPACE, RBRACKET]
  const CHECKED: Str := [DASH, SPACE, LBRACKET, LOWER_X, RBRACKET]
  const CHECKED_UPPER: Str := [DASH, SPACE, LBRACKET, UPPER_X, RBRACKET]

  /** `/- \[[xX]\]/` matches at `k`. */
  predicate CheckedAt(s: Str, k: nat) {
    OccursAt(s, k, CHECKED) || OccursAt(s, k, CHECKED_UPPER)
  }

  /** The leftmost match of `/- \[[xX]\]/`. */
  function FirstChecked(s: Str): (r: Option<nat>)
    ensures r.Some? ==> CheckedAt(s, r.value) && forall k :: 0 <= k < r.value ==> !CheckedAt(s, k)
    ensures r.None? ==> !Includes(s, CHECKED) && !Includes(s, CHECKED_UPPER)
  {
    var lower, upper := IndexOf(s, CHECKED), IndexOf(s, CHECKED_UPPER);
    if lower.None? then upper
    else if upper.None? || lower.value <= upper.value then lower
    else upper
  }

  /** The line with the five units at `k` replaced by `marker`. */
  function ReplaceAt(s: Str, k: nat, marker: Str): (r: Str)
    requires k + 5 <= |s| && |marker| == 5
    ensures |r| == |s|
  {
    s[..k] + marker + s[k + 5..]
  }

  /** The rewrite of a toggle, or `None` when the line holds no checkbox. */
  function Toggle(s: Str): (r: Option<Str>)
    ensures r.None? <==> !Includes(s, UNCHECKED) && !Includes(s, CHECKED) && !Includes(s, CHECKED_UPPER)
    ensures r.Some? ==> |r.value| == |s|
  {
    match IndexOf(s, UNCHECKED)
    case Some(k) => Some(ReplaceAt(s, k, CHECKED))
    case None =>
      match FirstChecked(s)
      case Some(k) => Some(ReplaceAt(s, k, UNCHECKED))
      case None => None
  }

  /** The three markers start with the only `-` they contain. */
  predicate DashLed(m: Str) {
    |m| == 5 && m[0] == DASH && forall i :: 1 <= i < 5 ==> m[i] != DASH
  }

  /**
   * Writing a marker at `k` creates no other occurrence of a marker that
   * overlaps it, and leaves the occurrences away from it as they were.
   */
  lemma ReplaceOccurs(s: Str, k: nat, marker: Str, pat: Str, j: nat)
    requires k + 5 <= |s| && DashLed(marker) && DashLed(pat)
    requires j != k
    ensures OccursAt(ReplaceAt(s, k, marker), j, pat) <==> (j + 5 <= k || k + 5 <= j) && OccursAt(s, j, pat)
  {
    var r := ReplaceAt(s, k, marker);
    if j + 5 <= k {
      if j + 5 <= |r| {
        assert r[j..j + 5] == s[j..j + 5];
      }
    } else if k + 5 <= j {
      if j + 5 <= |r| {
        assert r[k + 5..] == s[k + 5..];
        assert r[j..j + 5] == r[k + 5..][j - k - 5..j - k] == s[k + 5..][j - k - 5..j - k] == s[j..j + 5];
        assert OccursAt(r, j, pat) <==> OccursAt(s, j, pat);
      } else {
        assert !OccursAt(r, j, pat) && !OccursAt(s, j, pat);
      }
    } else if j + 5 <= |r| {
      if j < k {
        assert r[k] == DASH && pat[k - j] != DASH;
        assert r[j..j + 5][k - j] == r[k];
      } else {
        assert r[j] == marker[j - k] && marker[j - k] != DASH;
        assert r[j..j + 5][0] == r[j];
      }
    }
  }

  lemma MarkersDashLed()
    ensures DashLed(UNCHECKED) && DashLed(CHECKED) && DashLed(CHECKED_UPPER)
  {
  }

  /** The marker written at `k` is found at `k`. */
  lemma ReplaceFound(s: Str, k: nat, marker: Str)
    requires k + 5 <= |s| && |marker| == 5
    ensures OccursAt(ReplaceAt(s, k, marker), k, marker)
    ensures ReplaceAt(ReplaceAt(s, k, marker), k, s[k..k + 5]) == s
  {
    var r := ReplaceAt(s, k, marker);
    assert r[k..k + 5] == marker;
    assert r[..k] == s[..k] && r[k + 5..] == s[k + 5..];
    assert s[..k] + s[k..k + 5] + s[k + 5..] == s;
  }

  /**
   * Checking then unchecking restores a line whose only "- [ ]" is at `k`
   * and that has no checked box before it.
   */
  lemma CheckThenUncheck(s: Str, k: nat)
    requires IndexOf(s, UNCHECKED) == Some(k)
    requires forall j :: 0 <= j <= |s| && j != k ==> !OccursAt(s, j, UNCHECKED)
    requires forall j :: 0 <= j < k ==> !CheckedAt(s, j)
    ensures Toggle(s).Some? && Toggle(Toggle(s).value) == Some(s)
  {
    var r := ReplaceAt(s, k, CHECKED);
    MarkersDashLed();
    ReplaceFound(s, k, CHECKED);
    assert Toggle(s) == Some(r);
    forall j | 0 <= j <= |r| ensures !OccursAt(r, j, UNCHECKED) {
      if j != k {
        ReplaceOccurs(s, k, CHECKED, UNCHECKED, j);
      }
    }
    assert IndexOf(r, UNCHECKED).None?;
    forall j | 0 <= j < k ensures !CheckedAt(r, j) {
      assert !CheckedAt(s, j);
      ReplaceOccurs(s, k, CHECKED, CHECKED, j);
      ReplaceOccurs(s, k, CHECKED, CHECKED_UPPER, j);
    }
    assert FirstChecked(r) == Some(k);
    assert s[k..k + 5] == UNCHECKED;
  }

  /**
   * Unchecking then checking restores a line with no "- [ ]" whose first
   * checked box is written with a lower-case `x`.
   */
  lemma UncheckThenCheck(s: Str, k: nat)
    requires !Includes(s, UNCHECKED)
    requires FirstChecked(s) == Some(k) && OccursAt(s, k, CHECKED)
    ensures Toggle(s).Some? && Toggle(Toggle(s).value) == Some(s)
  {
    var r := ReplaceAt(s, k, UNCHECKED);
    MarkersDashLed();
    ReplaceFound(s, k, UNCHECKED);
    assert IndexOf(s, UNCHECKED).None?;
    assert Toggle(s) == Some(r);
    forall j | 0 <= j < k ensures !OccursAt(r, j, UNCHECKED) {
      ReplaceOccurs(s, k, UNCHECKED, UNCHECKED, j);
    }
    assert IndexOf(r, UNCHECKED) == Some(k);
    assert s[k..k + 5] == CHECKED;
  }

  /** Where the toggle writes: the first "- [ ]", else the first checked box. */
  function MarkerIndex(s: Str): Option<nat> {
    if IndexOf(s, UNCHECKED).Some? then IndexOf(s, UNCHECKED) else FirstChecked(s)
  }

  /** A marker that differs from the replaced one only in its state changes one code unit. */
  lemma ReplaceState(s: Str, k: nat, marker: Str)
    requires k + 5 <= |s| && |marker| == 5
    requires forall i :: 0 <= i < 5 && i != 3 ==> marker[i] == s[k..k + 5][i]
    ensures forall i :: 0 <= i < |s| && i != k + 3 ==> ReplaceAt(s, k, marker)[i] == s[i]
    ensures ReplaceAt(s, k, marker)[k + 3] == marker[3]
  {
    var r := ReplaceAt(s, k, marker);
    forall i | 0 <= i < |s| && i != k + 3 ensures r[i] == s[i] {
      if k <= i < k + 5 {
        assert r[i] == marker[i - k];
      }
    }
  }

  /** Toggling changes exactly one code unit, the state inside the box it finds. */
  lemma ToggleChangesOneUnit(s: Str)
    requires Toggle(s).Some?
    ensures MarkerIndex(s).Some? && MarkerIndex(s).value + 5 <= |s|
    ensures var k, r := MarkerIndex(s).value, Toggle(s).value;
      (forall i :: 0 <= i < |s| && i != k + 3 ==> r[i] == s[i]) && (r[k + 3] == SPACE <==> s[k + 3] != SPACE)
  {
    var k := MarkerIndex(s).value;
    if IndexOf(s, UNCHECKED).Some? {
      assert s[k..k + 5] == UNCHECKED;
      ReplaceState(s, k, CHECKED);
    } else {
      assert CheckedAt(s, k) && s[k + 3] == s[k..k + 5][3];
      ReplaceState(s, k, UNCHECKED);
    }
  }
}
