/**
  The list of preset mantras a user picks from before adding them: each row carries a
  selection flag, and the view model also keeps the set of selected titles
  (`PreloadedMantraLisViewModel`).
*/
module PreloadedMantras {
  import opened Wrappers

  /** A row of the preset list; its identifier and image are left out. */
  datatype PreloadedMantra = PreloadedMantra(title: string, isSelected: bool)

  /** `mantras.firstIndex(where: { $0.title == title })` */
  function FirstIndex(mantras: seq<PreloadedMantra>, title: string): (r: Option<int>)
    ensures r.Some? ==> 0 <= r.value < |mantras| && mantras[r.value].title == title
    ensures r.Some? ==> forall j :: 0 <= j < r.value ==> mantras[j].title != title
    ensures r.None? ==> forall j :: 0 <= j < |mantras| ==> mantras[j].title != title
  {
    if mantras == [] then None
    else if mantras[0].title == title then Some(0)
    else match FirstIndex(mantras[1..], title)
      case None => None
      case Some(i) => Some(i + 1)
  }

  /** Row `i` is the first row with its title. */
  predicate IsFirstWithTitle(mantras: seq<PreloadedMantra>, i: int)
    requires 0 <= i < |mantras|
  {
    forall j :: 0 <= j < i ==> mantras[j].title != mantras[i].title
  }

  /** The flag of the first row titled `title`, if any, set to `selected`. */
  function MarkFirst(mantras: seq<PreloadedMantra>, title: string, selected: bool): (r: seq<PreloadedMantra>)
    ensures |r| == |mantras|
    ensures forall i :: 0 <= i < |r| ==> r[i].title == mantras[i].title
  {
    match FirstIndex(mantras, title)
    case None => mantras
    case Some(i) => mantras[i := mantras[i].(isSelected := selected)]
  }

  /** The rows after selecting `title`: its first row is flagged exactly when the title was not yet selected. */
  function SelectRows(mantras: seq<PreloadedMantra>, titles: set<string>, title: string): (r: seq<PreloadedMantra>)
    ensures |r| == |mantras|
  {
    var selected := title !in titles;
    MarkFirst(mantras, title, selected)
  }

  /** `title` taken out of the set when present, put in otherwise. */
  function ToggleTitle(titles: set<string>, title: string): (r: set<string>)
    ensures title in r <==> title !in titles
    ensures forall t :: t != title ==> (t in r <==> t in titles)
  {
    if title in titles then titles - {title} else titles + {title}
  }

  /**
    Every row that is the first with its title is flagged exactly when its title is in the
    set (later rows with a repeated title are never touched by `select`).
  */
  ghost predicate Synced(mantras: seq<PreloadedMantra>, titles: set<string>) {
    forall i :: 0 <= i < |mantras| && IsFirstWithTitle(mantras, i) ==>
      (mantras[i].isSelected <==> mantras[i].title in titles)
  }

  /** Marking changes the first matching row's flag to `selected` and no other row. */
  lemma MarkFirstChangesOnlyFirstMatch(mantras: seq<PreloadedMantra>, title: string, selected: bool)
    ensures var r := MarkFirst(mantras, title, selected);
      forall i :: 0 <= i < |mantras| ==>
        if mantras[i].title == title && IsFirstWithTitle(mantras, i)
        then r[i] == mantras[i].(isSelected := selected)
        else r[i] == mantras[i]
  {
    var r := MarkFirst(mantras, title, selected);
    forall i | 0 <= i < |mantras|
      ensures if mantras[i].title == title && IsFirstWithTitle(mantras, i)
        then r[i] == mantras[i].(isSelected := selected)
        else r[i] == mantras[i]
    {
      match FirstIndex(mantras, title)
      case None =>
      case Some(k) =>
        if i < k {
          assert mantras[i].title != title;
        } else if i > k && mantras[i].title == title {
          assert mantras[k].title == mantras[i].title;
          assert !IsFirstWithTitle(mantras, i);
        }
    }
  }

  /** Without a row titled `title`, marking leaves the rows as they are. */
  lemma MarkFirstWithoutMatch(mantras: seq<PreloadedMantra>, title: string, selected: bool)
    requires forall i :: 0 <= i < |mantras| ==> mantras[i].title != title
    ensures MarkFirst(mantras, title, selected) == mantras
  {
  }

  /** Selecting the same title twice restores the set of selected titles. */
  lemma ToggleTwice(titles: set<string>, title: string)
    ensures ToggleTitle(ToggleTitle(titles, title), title) == titles
  {
  }

  /** On synced rows, selecting the same title twice also restores the rows. */
  lemma SelectTwiceRestoresRows(mantras: seq<PreloadedMantra>, titles: set<string>, title: string)
    requires Synced(mantras, titles)
    ensures SelectRows(SelectRows(mantras, titles, title), ToggleTitle(titles, title), title) == mantras
  {
    var once := SelectRows(mantras, titles, title);
    var twice := SelectRows(once, ToggleTitle(titles, title), title);
    MarkFirstChangesOnlyFirstMatch(mantras, title, title !in titles);
    MarkFirstChangesOnlyFirstMatch(once, title, title in titles);
    forall i | 0 <= i < |mantras|
      ensures twice[i] == mantras[i]
    {
      assert IsFirstWithTitle(once, i) <==> IsFirstWithTitle(mantras, i);
    }
  }

  /** Selecting keeps the rows' flags in step with the set of selected titles. */
  lemma SelectKeepsSynced(mantras: seq<PreloadedMantra>, titles: set<string>, title: string)
    requires Synced(mantras, titles)
    ensures Synced(SelectRows(mantras, titles, title), ToggleTitle(titles, title))
  {
    var r := SelectRows(mantras, titles, title);
    var ts := ToggleTitle(titles, title);
    MarkFirstChangesOnlyFirstMatch(mantras, title, title !in titles);
    forall i | 0 <= i < |r|
      ensures IsFirstWithTitle(r, i) ==> (r[i].isSelected <==> r[i].title in ts)
    {
      assert IsFirstWithTitle(r, i) <==> IsFirstWithTitle(mantras, i);
    }
  }

  /** `PreloadedMantraLisViewModel`: the preset rows and the titles picked so far. */
  class PreloadedMantraListViewModel {
    var mantras: seq<PreloadedMantra>
    var selectedMantrasTitles: set<string>

    /** Starts with the given preset rows (loading them is left out) and nothing selected. */
    constructor(mantras: seq<PreloadedMantra>)
      requires forall i :: 0 <= i < |mantras| ==> !mantras[i].isSelected
      ensures this.mantras == mantras && selectedMantrasTitles == {}
      ensures Synced(this.mantras, selectedMantrasTitles)
    {
      this.mantras := mantras;
      selectedMantrasTitles := {};
    }

    /** `select(mantra:)`: toggle the title in the set and set the first matching row's flag to match. */
    method Select(mantra: PreloadedMantra)
      modifies this
      ensures selectedMantrasTitles == ToggleTitle(old(selectedMantrasTitles), mantra.title)
      ensures mantras == SelectRows(old(mantras), old(selectedMantrasTitles), mantra.title)
      ensures old(Synced(mantras, selectedMantrasTitles)) ==> Synced(mantras, selectedMantrasTitles)
    {
      if Synced(mantras, selectedMantrasTitles) {
        SelectKeepsSynced(mantras, selectedMantrasTitles, mantra.title);
      }
      if mantra.title in selectedMantrasTitles {
        var index := FirstIndex(mantras, mantra.title);
        if index.Some? {
          mantras := mantras[index.value := mantras[index.value].(isSelected := false)];
        }
        selectedMantrasTitles := selectedMantrasTitles - {mantra.title};
      } else {
        var index := FirstIndex(mantras, mantra.title);
        if index.Some? {
          mantras := mantras[index.value := mantras[index.value].(isSelected := true)];
        }
        selectedMantrasTitles := selectedMantrasTitles + {mantra.title};
      }
    }

    /** `addMantras()`, whose body is empty: nothing changes. */
    method AddMantras()
      ensures mantras == old(mantras) && selectedMantrasTitles == old(selectedMantrasTitles)
    {
    }
  }
}
