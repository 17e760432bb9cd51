/**
 * The selection set of the gallery and the effect of clicking thumbnails on
 * it: each click flips the membership of the clicked path.
 */
module Selection {
  import opened Paths

  /** The selection after one click on `p`: `p` flips, every other path stays. */
  function Toggled(s: set<Path>, p: Path): (r: set<Path>)
    ensures p in r <==> p !in s
    ensures forall q :: q != p ==> (q in r <==> q in s)
  {
    if p in s then s - {p} else s + {p}
  }

  /** A click is the symmetric difference with {p}. */
  lemma ToggledIsSymmetricDifference(s: set<Path>, p: Path)
    ensures Toggled(s, p) == (s - {p}) + ({p} - s)
  {
  }

  /** Clicking the same thumbnail twice restores the selection. */
  lemma ToggledTwice(s: set<Path>, p: Path)
    ensures Toggled(Toggled(s, p), p) == s
  {
  }

  /** The selection after the clicks `clicks`, in order. */
  function ApplyToggles(s: set<Path>, clicks: seq<Path>): set<Path>
    decreases clicks
  {
    if clicks == [] then s else ApplyToggles(Toggled(s, clicks[0]), clicks[1..])
  }

  /** How many of `clicks` are on `q`. */
  function Count(clicks: seq<Path>, q: Path): nat
  {
    if clicks == [] then 0
    else (if clicks[0] == q then 1 else 0) + Count(clicks[1..], q)
  }

  /**
   * After any sequence of clicks a path is selected exactly when it was
   * selected before and clicked an even number of times, or was not
   * selected and clicked an odd number of times.
   */
  lemma {:induction false} ApplyTogglesParity(s: set<Path>, clicks: seq<Path>, q: Path)
    ensures q in ApplyToggles(s, clicks) <==> ((q in s) != (Count(clicks, q) % 2 == 1))
    decreases clicks
  {
    if clicks != [] {
      ApplyTogglesParity(Toggled(s, clicks[0]), clicks[1..], q);
    }
  }

  /** Starting from the empty selection, the selected paths are those clicked an odd number of times. */
  lemma OddClicksSelected(clicks: seq<Path>, q: Path)
    ensures q in ApplyToggles({}, clicks) <==> Count(clicks, q) % 2 == 1
  {
    ApplyTogglesParity({}, clicks, q);
  }
}
