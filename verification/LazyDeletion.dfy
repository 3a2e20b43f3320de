/**
  Removal of a random element from an array by marking it deleted (Lab3/prog19.c).  The cells that
  are not marked, read from left to right, are a list; removing the index-th element from that list
  is what the marking stands for.
 */
module LazyDeletion {
  const DELETED: int := -1

  /** What is printed: the cells not marked. */
  function Live(s: seq<int>): (view: seq<int>)
  {
    if s == [] then []
    else if s[|s| - 1] == DELETED then Live(s[..|s| - 1])
    else Live(s[..|s| - 1]) + [s[|s| - 1]]
  }

  function Without(view: seq<int>, index: nat): (r: seq<int>)
    requires index < |view|
  {
    view[..index] + view[index + 1..]
  }

  lemma {:induction false} LiveConcat(a: seq<int>, b: seq<int>)
    ensures Live(a + b) == Live(a) + Live(b)
  {
    if b == [] {
      assert a + b == a;
    } else {
      var n := |b| - 1;
      assert (a + b)[..|a + b| - 1] == a + b[..n];
      LiveConcat(a, b[..n]);
    }
  }

  /** Marking a live cell removes exactly the element with as many live cells before it. */
  lemma MarkingRemoves(s: seq<int>, i: nat)
    requires i < |s| && s[i] != DELETED
    ensures |Live(s[..i])| < |Live(s)|
    ensures Live(s[i := DELETED]) == Without(Live(s), |Live(s[..i])|)
  {
    var before, after := s[..i], s[i + 1..];
    assert s == before + [s[i]] + after;
    assert s[i := DELETED] == before + [DELETED] + after;
    LiveConcat(before + [s[i]], after);
    LiveConcat(before + [DELETED], after);
    LiveConcat(before, [s[i]]);
    LiveConcat(before, [DELETED]);
    assert Live([s[i]]) == [s[i]] && Live([DELETED]) == [];
  }

  lemma {:induction false} AllLive(s: seq<int>)
    requires DELETED !in s
    ensures Live(s) == s
  {
    if s != [] {
      AllLive(s[..|s| - 1]);
    }
  }

  // ---------------------------------------------------------------------------------------------
  // Runs.

  function OneTo(n: nat): (s: seq<int>)
  {
    seq(n, i => i + 1)
  }

  /** A strictly increasing selection from 1..n. */
  ghost predicate Selection(view: seq<int>, n: nat)
  {
    && (forall i :: 0 <= i < |view| ==> 1 <= view[i] <= n)
    && (forall i, j :: 0 <= i < j < |view| ==> view[i] < view[j])
  }

  /** `a` is `b` with some elements left out. */
  ghost predicate Subsequence(a: seq<int>, b: seq<int>)
  {
    if a == [] then true
    else if b == [] then false
    else
      var c := b[..|b| - 1];
      (a[|a| - 1] == b[|b| - 1] && Subsequence(a[..|a| - 1], c)) || Subsequence(a, c)
  }

  lemma {:induction false} EverySequenceOfItself(a: seq<int>)
    ensures Subsequence(a, a)
  {
    if a != [] {
      EverySequenceOfItself(a[..|a| - 1]);
    }
  }

  lemma {:induction false} SubsequenceTransitive(a: seq<int>, b: seq<int>, c: seq<int>)
    requires Subsequence(a, b) && Subsequence(b, c)
    ensures Subsequence(a, c)
  {
    if a != [] {
      var a', b', c' := a[..|a| - 1], b[..|b| - 1], c[..|c| - 1];
      if b[|b| - 1] == c[|c| - 1] && Subsequence(b', c') {
        if a[|a| - 1] == b[|b| - 1] && Subsequence(a', b') {
          SubsequenceTransitive(a', b', c');
        } else {
          SubsequenceTransitive(a, b', c');
        }
      } else {
        SubsequenceTransitive(a, b, c');
      }
    }
  }

  lemma {:induction false} WithoutIsSubsequence(view: seq<int>, index: nat)
    requires index < |view|
    ensures Subsequence(Without(view, index), view)
  {
    var last := |view| - 1;
    EverySequenceOfItself(view[..last]);
    if index < last {
      WithoutIsSubsequence(view[..last], index);
      assert Without(view, index)[..last - 1] == Without(view[..last], index);
    } else {
      assert Without(view, index) == view[..last];
    }
  }

  function AfterInterrupt(view: seq<int>, random: nat): (r: seq<int>)
  {
    if view == [] then [] else Without(view, random % |view|)
  }

  /** One SIGINT: the element at position random % count is the one missing, those before it stay where
      they are and those after it move up by one; an empty list stays empty. */
  lemma InterruptRemovesOne(view: seq<int>, random: nat)
    ensures view == [] ==> AfterInterrupt(view, random) == []
    ensures view != [] ==>
              var r, k := AfterInterrupt(view, random), random % |view|;
              && |r| == |view| - 1
              && forall i :: 0 <= i < |r| ==> r[i] == if i < k then view[i] else view[i + 1]
  {
  }

  /** The list after one SIGINT per random number. */
  function Views(n: nat, draws: seq<nat>): (view: seq<int>)
  {
    if draws == [] then OneTo(n) else AfterInterrupt(Views(n, draws[..|draws| - 1]), draws[|draws| - 1])
  }

  /** The list is always an increasing selection of 1..n, one element shorter for every SIGINT until
      nothing is left. */
  lemma {:induction false} ViewsAreSelections(n: nat, draws: seq<nat>)
    ensures Selection(Views(n, draws), n)
    ensures |Views(n, draws)| == if |draws| <= n then n - |draws| else 0
  {
    if draws != [] {
      ViewsAreSelections(n, draws[..|draws| - 1]);
    }
  }

  // ---------------------------------------------------------------------------------------------

  /** The array shared by main and the signal thread, each of which holds its mutex throughout. */
  class Numbers {
    const cells: array<int>
    var arrayCount: int

    ghost predicate Valid()
      reads this, cells
    {
      arrayCount == |Live(cells[..])|
    }

    constructor (arraySize: nat)
      ensures Valid() && fresh(cells) && cells.Length == arraySize
      ensures Live(cells[..]) == OneTo(arraySize) == Views(arraySize, [])
    {
      var a := new int[arraySize];
      var i := 0;
      while i < arraySize
        invariant i <= arraySize && forall k :: 0 <= k < i ==> a[k] == k + 1
      {
        a[i] := i + 1;
        i := i + 1;
      }
      assert a[..] == OneTo(arraySize);
      AllLive(a[..]);
      cells, arrayCount := a, arraySize;
    }

    /** The loop stays inside the array, ends, and removes the index-th element of the list. */
    method RemoveItem(index: nat)
      requires Valid() && index < arrayCount
      modifies this`arrayCount, cells
      ensures Valid() && arrayCount == old(arrayCount) - 1
      ensures Live(cells[..]) == Without(old(Live(cells[..])), index)
      ensures forall k :: 0 <= k < cells.Length ==> cells[k] == old(cells[k]) || cells[k] == DELETED
    {
      var curIndex := -1;
      var i := -1;
      while curIndex != index
        invariant -1 <= i < cells.Length && -1 <= curIndex <= index
        invariant curIndex + 1 == |Live(cells[..i + 1])|
        invariant curIndex == index ==> 0 <= i && cells[i] != DELETED
        decreases cells.Length - i
      {
        assert cells[..cells.Length] == cells[..];
        i := i + 1;
        assert cells[..i + 1][..i] == cells[..i];
        if cells[i] != DELETED {
          curIndex := curIndex + 1;
        }
      }
      ghost var was := cells[..];
      assert was[..i + 1][..i] == was[..i] && cells[..i + 1] == was[..i + 1];
      MarkingRemoves(was, i);
      cells[i] := DELETED;
      assert cells[..] == was[i := DELETED];
      arrayCount := arrayCount - 1;
    }

    method PrintArray() returns (printed: seq<int>)
      ensures printed == Live(cells[..])
    {
      printed := [];
      for i := 0 to cells.Length
        invariant printed == Live(cells[..i])
      {
        assert cells[..i + 1][..i] == cells[..i];
        if cells[i] != DELETED {
          printed := printed + [cells[i]];
        }
      }
      assert cells[..cells.Length] == cells[..];
    }

    /** One SIGINT; with nothing left it does nothing. */
    method HandleInterrupt(random: nat)
      requires Valid()
      modifies this`arrayCount, cells
      ensures Valid()
      ensures Live(cells[..]) == AfterInterrupt(old(Live(cells[..])), random)
      ensures old(arrayCount) == 0 ==> cells[..] == old(cells[..])
    {
      if arrayCount > 0 {
        RemoveItem(random % arrayCount);
      }
    }
  }

  /** Signals as they arrive, and main printing in between. */
  datatype Event = Interrupt(random: nat) | Quit | Print

  function Draws(events: seq<Event>): (draws: seq<nat>)
  {
    if events == [] then []
    else
      var last := |events| - 1;
      Draws(events[..last]) + (if events[last].Interrupt? then [events[last].random] else [])
  }

  /** What main prints in a run: at every print the list as the signals have left it. */
  function Lines(n: nat, events: seq<Event>): (lines: seq<seq<int>>)
  {
    if events == [] then []
    else
      var earlier := events[..|events| - 1];
      Lines(n, earlier) + (if events[|events| - 1] == Print then [Views(n, Draws(earlier))] else [])
  }

  /** Five elements, and two signals with random numbers 7 and 2. */
  lemma ViewsExample()
    ensures Views(5, []) == [1, 2, 3, 4, 5] && Views(5, [7]) == [1, 2, 4, 5] && Views(5, [7, 2]) == [1, 2, 5]
  {
    assert [7, 2][..1] == [7] && [7][..0] == [];
    assert Without([1, 2, 3, 4, 5], 2) == [1, 2, 4, 5] && Without([1, 2, 4, 5], 2) == [1, 2, 5];
  }

  /** Main prints before and after them. */
  lemma LinesExample()
    ensures Lines(5, [Print, Interrupt(7), Interrupt(2), Print]) == [[1, 2, 3, 4, 5], [1, 2, 5]]
  {
    var three := [Print, Interrupt(7), Interrupt(2)];
    ViewsExample();
    DrawsExample();
    assert (three + [Print])[..3] == three && three[..2] == [Print, Interrupt(7)];
    assert Lines(5, [Print]) == [[1, 2, 3, 4, 5]] by {
      assert [Print][..0] == [] && Draws([]) == [];
    }
    assert [Print, Interrupt(7)][..1] == [Print];
    assert Lines(5, three) == Lines(5, three[..2]) == Lines(5, [Print]);
    assert three + [Print] == [Print, Interrupt(7), Interrupt(2), Print];
  }

  lemma DrawsExample()
    ensures Draws([Print, Interrupt(7), Interrupt(2)]) == [7, 2]
  {
    assert [Print, Interrupt(7), Interrupt(2)][..2] == [Print, Interrupt(7)];
    assert [Print, Interrupt(7)][..1] == [Print] && [Print][..0] == [];
  }

  lemma OneMoreEvent(n: nat, events: seq<Event>, k: nat)
    requires k < |events|
    ensures Views(n, Draws(events[..k + 1])) ==
              if events[k].Interrupt? then AfterInterrupt(Views(n, Draws(events[..k])), events[k].random)
              else Views(n, Draws(events[..k]))
    ensures Lines(n, events[..k + 1]) ==
              Lines(n, events[..k]) + (if events[k] == Print then [Views(n, Draws(events[..k]))] else [])
  {
    var earlier, now := events[..k], events[..k + 1];
    assert now[..|now| - 1] == earlier;
    if events[k].Interrupt? {
      assert Draws(now)[..|Draws(now)| - 1] == Draws(earlier);
    } else {
      assert Draws(now) == Draws(earlier);
    }
  }

  /** Whatever the signals, every printed line is an increasing selection of 1..n. */
  lemma {:induction false} LinesAreSelections(n: nat, events: seq<Event>, k: nat)
    requires k < |Lines(n, events)|
    ensures Selection(Lines(n, events)[k], n)
  {
    var earlier := events[..|events| - 1];
    ViewsAreSelections(n, Draws(earlier));
    if k < |Lines(n, earlier)| {
      LinesAreSelections(n, earlier, k);
    }
  }

  lemma LastEvent(n: nat, events: seq<Event>)
    requires events != []
    ensures Subsequence(Views(n, Draws(events)), Views(n, Draws(events[..|events| - 1])))
  {
    var last := |events| - 1;
    OneMoreEvent(n, events, last);
    assert events[..last + 1] == events;
    var before := Views(n, Draws(events[..last]));
    EverySequenceOfItself(before);
    if events[last].Interrupt? && before != [] {
      WithoutIsSubsequence(before, events[last].random % |before|);
    }
  }

  /** What is left is always a subsequence of what was printed. */
  lemma {:induction false} ViewWithinLine(n: nat, events: seq<Event>, j: nat)
    requires j < |Lines(n, events)|
    ensures Subsequence(Views(n, Draws(events)), Lines(n, events)[j])
  {
    var earlier := events[..|events| - 1];
    LastEvent(n, events);
    if j < |Lines(n, earlier)| {
      ViewWithinLine(n, earlier, j);
      SubsequenceTransitive(Views(n, Draws(events)), Views(n, Draws(earlier)), Lines(n, earlier)[j]);
    }
  }

  /** Every printed line is a subsequence of every line before it: elements only disappear. */
  lemma {:induction false} LinesOnlyShrink(n: nat, events: seq<Event>, j: nat, k: nat)
    requires j < k < |Lines(n, events)|
    ensures Subsequence(Lines(n, events)[k], Lines(n, events)[j])
  {
    var earlier := events[..|events| - 1];
    if k < |Lines(n, earlier)| {
      LinesOnlyShrink(n, earlier, j, k);
    } else {
      ViewWithinLine(n, earlier, j);
    }
  }

  /** One signal or one print. */
  method React(numbers: Numbers, event: Event, lines: seq<seq<int>>) returns (more: seq<seq<int>>)
    requires numbers.Valid() && event != Quit
    modifies numbers`arrayCount, numbers.cells
    ensures numbers.Valid()
    ensures Live(numbers.cells[..]) ==
              if event.Interrupt? then AfterInterrupt(old(Live(numbers.cells[..])), event.random)
              else old(Live(numbers.cells[..]))
    ensures more == lines + (if event == Print then [old(Live(numbers.cells[..]))] else [])
  {
    more := lines;
    if event.Interrupt? {
      numbers.HandleInterrupt(event.random);
    } else {
      var line := numbers.PrintArray();
      more := lines + [line];
    }
  }

  lemma AfterOneMoreEvent(n: nat, events: seq<Event>, k: nat, view: seq<int>, lines: seq<seq<int>>,
                          after: seq<int>, more: seq<seq<int>>)
    requires k < |events| && events[k] != Quit
    requires view == Views(n, Draws(events[..k])) && lines == Lines(n, events[..k])
    requires after == if events[k].Interrupt? then AfterInterrupt(view, events[k].random) else view
    requires more == lines + (if events[k] == Print then [view] else [])
    ensures after == Views(n, Draws(events[..k + 1])) && more == Lines(n, events[..k + 1])
    ensures Quit !in events[..k] ==> Quit !in events[..k + 1]
  {
    OneMoreEvent(n, events, k);
    assert events[..k + 1] == events[..k] + [events[k]];
  }

  /** A whole run until SIGQUIT. */
  method SignalHandling(arraySize: nat, events: seq<Event>) returns (lines: seq<seq<int>>, seen: nat)
    ensures seen <= |events| && Quit !in events[..seen] && (seen < |events| ==> events[seen] == Quit)
    ensures lines == Lines(arraySize, events[..seen])
  {
    var numbers := new Numbers(arraySize);
    lines, seen := [], 0;
    while seen < |events| && events[seen] != Quit
      invariant seen <= |events| && Quit !in events[..seen]
      invariant fresh(numbers) && fresh(numbers.cells) && numbers.Valid()
      invariant Live(numbers.cells[..]) == Views(arraySize, Draws(events[..seen]))
      invariant lines == Lines(arraySize, events[..seen])
    {
      ghost var view, earlier := Live(numbers.cells[..]), lines;
      lines := React(numbers, events[seen], lines);
      AfterOneMoreEvent(arraySize, events, seen, view, earlier, Live(numbers.cells[..]), lines);
      seen := seen + 1;
    }
  }
}
