/**
 * Post ids as they travel through a reorder request: the client sends keys
 * such as "post-12" or "12", `recalculate_publish_times` strips every
 * "post-", and `array_flip` turns each remaining key into an array key, which
 * PHP stores as an integer exactly when the key is a canonical decimal.
 * The queued posts are then sorted by the position of their id's key.
 */
module PostIds {
  import opened Wrappers

  /** WordPress post ids. */
  type PostId = nat

  predicate IsDigit(c: char) { '0' <= c <= '9' }

  function DigitChar(d: nat): (c: char)
    requires d < 10
    ensures IsDigit(c)
  {
    "0123456789"[d]
  }

  function DigitValue(c: char): (d: nat)
    requires IsDigit(c)
    ensures d < 10 && DigitChar(d) == c
  {
    (c as int - '0' as int) as nat
  }

  /** The decimal spelling of `n`, as PHP prints an integer. */
  function Decimal(n: nat): (s: string)
    ensures |s| >= 1 && (forall i :: 0 <= i < |s| ==> IsDigit(s[i]))
    ensures s[0] != '0' || n == 0
    ensures |s| == 1 <==> n < 10
  {
    if n < 10 then [DigitChar(n)] else Decimal(n / 10) + [DigitChar(n % 10)]
  }

  /** The value of a string of digits. */
  function DigitsValue(s: string): nat
    requires forall i :: 0 <= i < |s| ==> IsDigit(s[i])
  {
    if s == [] then 0 else DigitsValue(s[..|s| - 1]) * 10 + DigitValue(s[|s| - 1])
  }

  /** A key PHP turns into an integer array key that can equal a post id:
      non-empty, digits only, and no leading zero. */
  predicate Canonical(s: string) {
    && |s| >= 1
    && (forall i :: 0 <= i < |s| ==> IsDigit(s[i]))
    && (s[0] != '0' || |s| == 1)
  }

  /** The post id a key names, if any. */
  function ParseId(s: string): (r: Option<PostId>)
    ensures r.Some? <==> Canonical(s)
  {
    if Canonical(s) then Some(DigitsValue(s)) else None
  }

  /** Reading back a printed id gives the id. */
  lemma {:induction false} ParseDecimal(n: nat)
    ensures ParseId(Decimal(n)) == Some(n)
  {
    DecimalValue(n);
  }

  lemma {:induction false} DecimalValue(n: nat)
    ensures DigitsValue(Decimal(n)) == n
  {
    if n >= 10 {
      var s := Decimal(n);
      DecimalValue(n / 10);
      assert s[..|s| - 1] == Decimal(n / 10);
    }
  }

  /** A key that names an id is that id's decimal spelling: keys and ids
      correspond one to one. */
  lemma {:induction false} CanonicalIsDecimal(s: string)
    requires Canonical(s)
    ensures Decimal(DigitsValue(s)) == s
    decreases |s|
  {
    var n := DigitsValue(s);
    if |s| == 1 {
      assert s[..0] == [];
      assert DigitsValue(s) == DigitsValue(s[..0]) * 10 + DigitValue(s[0]);
    } else {
      var init := s[..|s| - 1];
      assert Canonical(init) by {
        assert init[0] == s[0];
      }
      CanonicalIsDecimal(init);
      var m := DigitsValue(init);
      assert m >= 1 by {
        LeadingDigitPositive(init);
      }
      assert n / 10 == m && n % 10 == DigitValue(s[|s| - 1]);
      assert Decimal(n) == Decimal(m) + [DigitChar(n % 10)];
    }
  }

  lemma {:induction false} LeadingDigitPositive(s: string)
    requires Canonical(s) && s[0] != '0'
    ensures DigitsValue(s) >= 1
    decreases |s|
  {
    if |s| > 1 {
      var init := s[..|s| - 1];
      assert init[0] == s[0];
      LeadingDigitPositive(init);
    }
  }

  /** Two keys that name the same id are the same key. */
  lemma ParseInjective(a: string, b: string)
    requires ParseId(a).Some? && ParseId(a) == ParseId(b)
    ensures a == b
  {
    CanonicalIsDecimal(a);
    CanonicalIsDecimal(b);
  }

  const PREFIX: string := "post-"

  /** `str_replace('post-', '', s)`: every occurrence of "post-", found left
      to right without overlap, is removed. */
  function StripPostPrefix(s: string): (r: string)
    ensures |r| <= |s|
  {
    if |s| >= 5 && s[..5] == PREFIX then StripPostPrefix(s[5..])
    else if s == [] then []
    else [s[0]] + StripPostPrefix(s[1..])
  }

  /** A string without the letter 'p' has nothing to strip. */
  lemma {:induction false} StripWithoutP(s: string)
    requires forall i :: 0 <= i < |s| ==> s[i] != 'p'
    ensures StripPostPrefix(s) == s
  {
    if s != [] {
      if |s| >= 5 {
        assert s[..5][0] == s[0];
      }
      StripWithoutP(s[1..]);
    }
  }

  /** Both ways a client may send an id are read back as that id. */
  lemma StripDecimal(n: nat)
    ensures StripPostPrefix(Decimal(n)) == Decimal(n)
    ensures StripPostPrefix(PREFIX + Decimal(n)) == Decimal(n)
  {
    StripWithoutP(Decimal(n));
    assert (PREFIX + Decimal(n))[..5] == PREFIX;
    assert (PREFIX + Decimal(n))[5..] == Decimal(n);
  }

  function StripAll(keys: seq<string>): (r: seq<string>)
    ensures |r| == |keys|
    ensures forall i {:trigger r[i]} :: 0 <= i < |keys| ==> r[i] == StripPostPrefix(keys[i])
  {
    if keys == [] then [] else [StripPostPrefix(keys[0])] + StripAll(keys[1..])
  }

  /** The keys a caller builds from a list of ids (`array_column(..., 'ID')`
      and PHP's integer-to-string conversion). */
  function Decimals(ids: seq<PostId>): (keys: seq<string>)
    ensures |keys| == |ids|
    ensures forall i {:trigger keys[i]} :: 0 <= i < |ids| ==> keys[i] == Decimal(ids[i])
  {
    if ids == [] then [] else [Decimal(ids[0])] + Decimals(ids[1..])
  }

  predicate Distinct<T(==)>(s: seq<T>) {
    forall i, j :: 0 <= i < j < |s| ==> s[i] != s[j]
  }

  /** `b` lists the elements of `a` once each, in some order. */
  ghost predicate IsPermutation(a: seq<PostId>, b: seq<PostId>) {
    Distinct(a) && Distinct(b) && |a| == |b| && (forall x :: x in a <==> x in b)
  }

  /** The queued posts `usort` places by their position in `array_flip`:
      walking the keys in order, a queued id is taken where its key occurs
      for the last time. Queued posts whose id is not among the keys are
      not in this part; `Usort` and `Reorder` say where they go. */
  function Arrange(keys: seq<string>, queue: seq<PostId>): (r: seq<PostId>)
    ensures forall x :: x in r ==> x in queue
  {
    if keys == [] then []
    else
      var id := ParseId(keys[0]);
      var rest := Arrange(keys[1..], queue);
      if id.Some? && id.value in queue && keys[0] !in keys[1..] then [id.value] + rest else rest
  }

  /** Every queued id whose key was sent is in the arrangement, once. */
  lemma {:induction false} ArrangeDistinctComplete(keys: seq<string>, queue: seq<PostId>)
    ensures Distinct(Arrange(keys, queue))
    ensures forall x :: x in queue && Decimal(x) in keys ==> x in Arrange(keys, queue)
  {
    if keys != [] {
      ArrangeDistinctComplete(keys[1..], queue);
      var id := ParseId(keys[0]);
      var rest := Arrange(keys[1..], queue);
      forall x | x in queue && Decimal(x) in keys
        ensures x in Arrange(keys, queue)
      {
        ParseDecimal(x);
        if Decimal(x) != keys[0] {
          assert Decimal(x) in keys[1..];
        } else if keys[0] !in keys[1..] {
          assert id == Some(x);
        }
      }
      if id.Some? && id.value in queue && keys[0] !in keys[1..] {
        forall y | y in rest
          ensures y != id.value
        {
          ArrangeKeyed(keys[1..], queue, y);
          if y == id.value {
            ParseDecimal(y);
            ParseInjective(keys[0], Decimal(y));
          }
        }
        DistinctCons(id.value, rest);
      }
    }
  }

  /** Every id in the arrangement was sent as its own decimal key. */
  lemma {:induction false} ArrangeKeyed(keys: seq<string>, queue: seq<PostId>, y: PostId)
    requires y in Arrange(keys, queue)
    ensures Decimal(y) in keys
  {
    if keys != [] {
      var id := ParseId(keys[0]);
      if id.Some? && id.value in queue && keys[0] !in keys[1..] && y == id.value {
        CanonicalIsDecimal(keys[0]);
      } else {
        ArrangeKeyed(keys[1..], queue, y);
      }
    }
  }

  /** Every queued post's id is among `keys`. */
  predicate Covers(keys: seq<string>, queue: seq<PostId>) {
    forall x :: x in queue ==> Decimal(x) in keys
  }

  /** `a` is `b` with some entries left out and the others in their order. */
  predicate Subsequence(a: seq<PostId>, b: seq<PostId>)
    decreases |b|
  {
    if a == [] then true
    else if b == [] then false
    else if a[0] == b[0] then Subsequence(a[1..], b[1..])
    else Subsequence(a, b[1..])
  }

  /** The queued posts whose id is not among `keys`, in queue order. */
  function Unsent(keys: seq<string>, queue: seq<PostId>): (r: seq<PostId>)
    ensures forall x :: x in r <==> x in queue && Decimal(x) !in keys
    ensures |r| <= |queue|
  {
    if queue == [] then []
    else if Decimal(queue[0]) in keys then Unsent(keys, queue[1..])
    else [queue[0]] + Unsent(keys, queue[1..])
  }

  /** The queued posts whose id is among `keys`, in queue order. */
  function Sent(keys: seq<string>, queue: seq<PostId>): (r: seq<PostId>)
    ensures forall x :: x in r <==> x in queue && Decimal(x) in keys
  {
    if queue == [] then []
    else if Decimal(queue[0]) in keys then [queue[0]] + Sent(keys, queue[1..])
    else Sent(keys, queue[1..])
  }

  /** Both parts keep the queue's order: each is the queue with the posts
      of the other part left out. */
  lemma {:induction false} PartsInQueueOrder(keys: seq<string>, queue: seq<PostId>)
    ensures Subsequence(Unsent(keys, queue), queue)
    ensures Subsequence(Sent(keys, queue), queue)
  {
    if queue != [] {
      PartsInQueueOrder(keys, queue[1..]);
      var u, t := Unsent(keys, queue[1..]), Sent(keys, queue[1..]);
      if Decimal(queue[0]) in keys {
        assert u != [] ==> u[0] in u;
        assert ([queue[0]] + t)[1..] == t;
      } else {
        assert t != [] ==> t[0] in t;
        assert ([queue[0]] + u)[1..] == u;
      }
    }
  }

  lemma {:induction false} UnsentDistinct(keys: seq<string>, queue: seq<PostId>)
    requires Distinct(queue)
    ensures Distinct(Unsent(keys, queue))
  {
    if queue != [] {
      assert queue == [queue[0]] + queue[1..];
      DistinctCons(queue[0], queue[1..]);
      UnsentDistinct(keys, queue[1..]);
      if Decimal(queue[0]) !in keys {
        DistinctCons(queue[0], Unsent(keys, queue[1..]));
      }
    }
  }

  /** The `usort` at lines 214-218 as it runs. A post whose id `array_flip`
      lacks reads its position as null, which compares equal to position 0
      and below every other position; PHP's sort is stable, so the posts
      ranked 0 (the unsent ones and the one sent first) keep their date
      order at the front, and the rest follow by position. */
  function Usort(keys: seq<string>, queue: seq<PostId>): seq<PostId> {
    var later := if keys == [] then [] else keys[1..];
    Unsent(later, queue) + Arrange(later, queue)
  }

  /** `queue` with each post whose id was sent replaced, in turn, by the
      next post of `order`; the posts not sent stay where they are. */
  function Fill(keys: seq<string>, queue: seq<PostId>, order: seq<PostId>): (r: seq<PostId>)
    ensures |r| == |queue|
  {
    if queue == [] then []
    else if Decimal(queue[0]) in keys && order != [] then [order[0]] + Fill(keys, queue[1..], order[1..])
    else [queue[0]] + Fill(keys, queue[1..], order)
  }

  /** The reorder the post list evidently means: the sent posts, in the
      order sent, take the places in the queue that the sent posts held;
      every post not sent keeps its place. */
  function Reorder(keys: seq<string>, queue: seq<PostId>): seq<PostId> {
    Fill(keys, queue, Arrange(keys, queue))
  }

  /** The sent part and the unsent part together hold each queued post
      once, whichever comes first. */
  lemma PartsPermute(keys: seq<string>, queue: seq<PostId>)
    requires Distinct(queue)
    ensures IsPermutation(queue, Arrange(keys, queue) + Unsent(keys, queue))
    ensures IsPermutation(queue, Unsent(keys, queue) + Arrange(keys, queue))
    ensures |Arrange(keys, queue)| + |Unsent(keys, queue)| == |queue|
  {
    var a, u := Arrange(keys, queue), Unsent(keys, queue);
    ArrangeDistinctComplete(keys, queue);
    UnsentDistinct(keys, queue);
    forall x | x in a
      ensures x !in u
    {
      ArrangeKeyed(keys, queue, x);
    }
    DistinctAppend(a, u);
    DistinctAppend(u, a);
    DistinctSameLength(queue, a + u);
    DistinctSameLength(queue, u + a);
  }

  /** Filling the places of the sent posts with `order` keeps the unsent
      posts and brings in exactly the posts of `order`. */
  lemma {:induction false} FillElements(keys: seq<string>, queue: seq<PostId>, order: seq<PostId>)
    requires |order| + |Unsent(keys, queue)| == |queue|
    ensures forall x :: x in Fill(keys, queue, order) <==> x in Unsent(keys, queue) || x in order
  {
    if queue != [] {
      var rest := queue[1..];
      if Decimal(queue[0]) in keys {
        FillElements(keys, rest, order[1..]);
        assert order == [order[0]] + order[1..];
      } else {
        FillElements(keys, rest, order);
      }
    }
  }

  /** Filled with sent posts that repeat none, the queue repeats none. */
  lemma {:induction false} FillDistinct(keys: seq<string>, queue: seq<PostId>, order: seq<PostId>)
    requires Distinct(queue) && Distinct(order) && |order| + |Unsent(keys, queue)| == |queue|
    requires forall x :: x in order ==> Decimal(x) in keys
    ensures Distinct(Fill(keys, queue, order))
  {
    if queue != [] {
      var rest := queue[1..];
      assert queue == [queue[0]] + rest;
      DistinctCons(queue[0], rest);
      if Decimal(queue[0]) in keys {
        assert order == [order[0]] + order[1..];
        DistinctCons(order[0], order[1..]);
        FillDistinct(keys, rest, order[1..]);
        FillElements(keys, rest, order[1..]);
        DistinctCons(order[0], Fill(keys, rest, order[1..]));
      } else {
        FillDistinct(keys, rest, order);
        FillElements(keys, rest, order);
        DistinctCons(queue[0], Fill(keys, rest, order));
      }
    }
  }

  /** Every post not sent keeps its index; read in order, the sent places
      hold `order`, and the unsent posts are those of the queue. */
  lemma {:induction false} FillPlaces(keys: seq<string>, queue: seq<PostId>, order: seq<PostId>)
    requires |order| + |Unsent(keys, queue)| == |queue|
    requires forall x :: x in order ==> Decimal(x) in keys
    ensures var r := Fill(keys, queue, order);
            && (forall i :: 0 <= i < |queue| && Decimal(queue[i]) !in keys ==> r[i] == queue[i])
            && Sent(keys, r) == order
            && Unsent(keys, r) == Unsent(keys, queue)
  {
    if queue != [] {
      var rest := queue[1..];
      var r := Fill(keys, queue, order);
      if Decimal(queue[0]) in keys {
        FillPlaces(keys, rest, order[1..]);
        assert r == [order[0]] + Fill(keys, rest, order[1..]);
        assert r[1..] == Fill(keys, rest, order[1..]);
        assert order == [order[0]] + order[1..];
      } else {
        FillPlaces(keys, rest, order);
        assert r[1..] == Fill(keys, rest, order);
      }
    }
  }

  /** With every place sent, the filled queue is `order` itself. */
  lemma {:induction false} FillCovered(keys: seq<string>, queue: seq<PostId>, order: seq<PostId>)
    requires Covers(keys, queue) && |order| == |queue|
    ensures Fill(keys, queue, order) == order
  {
    if queue != [] {
      FillCovered(keys, queue[1..], order[1..]);
      assert order == [order[0]] + order[1..];
    }
  }

  /** Both the source's sort and the corrected one are permutations of the
      queue, whatever keys are sent. */
  lemma SortsPermute(keys: seq<string>, queue: seq<PostId>)
    requires Distinct(queue)
    ensures IsPermutation(queue, Usort(keys, queue))
    ensures IsPermutation(queue, Reorder(keys, queue))
  {
    PartsPermute(keys, queue);
    PartsPermute(if keys == [] then [] else keys[1..], queue);
    ArrangeDistinctComplete(keys, queue);
    var a := Arrange(keys, queue);
    forall x | x in a
      ensures Decimal(x) in keys
    {
      ArrangeKeyed(keys, queue, x);
    }
    FillElements(keys, queue, a);
    FillDistinct(keys, queue, a);
  }

  /** The corrected sort moves only the sent posts: each post not sent
      keeps its index, the sent ones read in the order sent, and the
      unsent ones are those of the queue, in date order. */
  lemma ReorderPlaces(keys: seq<string>, queue: seq<PostId>)
    requires Distinct(queue)
    ensures var r := Reorder(keys, queue);
            && (forall i :: 0 <= i < |queue| && Decimal(queue[i]) !in keys ==> r[i] == queue[i])
            && Sent(keys, r) == Arrange(keys, queue)
            && Unsent(keys, r) == Unsent(keys, queue)
  {
    PartsPermute(keys, queue);
    var a := Arrange(keys, queue);
    forall x | x in a
      ensures Decimal(x) in keys
    {
      ArrangeKeyed(keys, queue, x);
    }
    FillPlaces(keys, queue, a);
  }

  /** When every queued post's id is sent, the source's sort and the
      corrected one agree: both are the sent order. */
  lemma SortsAgreeWhenCovered(keys: seq<string>, queue: seq<PostId>)
    requires Distinct(queue) && Covers(keys, queue)
    ensures Unsent(keys, queue) == []
    ensures Reorder(keys, queue) == Arrange(keys, queue)
    ensures Usort(keys, queue) == Arrange(keys, queue)
  {
    UnsentCovered(keys, queue);
    PartsPermute(keys, queue);
    FillCovered(keys, queue, Arrange(keys, queue));
    if keys != [] {
      FirstKeyFront(keys, queue);
    }
  }

  lemma {:induction false} UnsentCovered(keys: seq<string>, queue: seq<PostId>)
    requires Covers(keys, queue)
    ensures Unsent(keys, queue) == []
  {
    if queue != [] {
      UnsentCovered(keys, queue[1..]);
    }
  }

  /** With every queued id sent, the posts ranked 0 are at most the one
      whose key comes first, which is where `Arrange` puts it too. */
  lemma FirstKeyFront(keys: seq<string>, queue: seq<PostId>)
    requires keys != [] && Distinct(queue) && Covers(keys, queue)
    ensures Unsent(keys[1..], queue) + Arrange(keys[1..], queue) == Arrange(keys, queue)
  {
    var later := keys[1..];
    var front := Unsent(later, queue);
    var id := ParseId(keys[0]);
    UnsentDistinct(later, queue);
    if id.Some? && id.value in queue && keys[0] !in later {
      ParseDecimal(id.value);
      CanonicalIsDecimal(keys[0]);
      forall x
        ensures x in front <==> x in [id.value]
      {
        if x in front {
          ParseDecimal(x);
          ParseInjective(keys[0], Decimal(x));
        }
      }
      DistinctSameLength(front, [id.value]);
      assert front == [id.value];
    } else {
      forall x | x in front
        ensures false
      {
        assert Decimal(x) == keys[0];
        ParseDecimal(x);
      }
      assert front == [];
      assert front + Arrange(later, queue) == Arrange(later, queue);
    }
  }

  /** Dragging post `y` above post `x` directly before it on a page of the
      post list sends the keys of `y` then `x`. The corrected sort swaps
      the two in place. The source's sort keeps `y` in place and moves `x`
      behind every later post, so the two agree only when no post follows
      the page. */
  lemma SwapOnPage(before: seq<PostId>, x: PostId, y: PostId, after: seq<PostId>)
    requires Distinct(before + [x, y] + after)
    ensures Reorder([Decimal(y), Decimal(x)], before + [x, y] + after) == before + [y, x] + after
    ensures Usort([Decimal(y), Decimal(x)], before + [x, y] + after) == before + [y] + after + [x]
  {
    SwapReorder(before, x, y, after);
    SwapUsort(before, x, y, after);
  }

  lemma SwapReorder(before: seq<PostId>, x: PostId, y: PostId, after: seq<PostId>)
    requires Distinct(before + [x, y] + after)
    ensures Reorder([Decimal(y), Decimal(x)], before + [x, y] + after) == before + [y, x] + after
  {
    var queue := before + [x, y] + after;
    var keys := [Decimal(y), Decimal(x)];
    assert NoneSent(keys, before) && NoneSent(keys, after) && Covers(keys, [x, y]) by {
      PlacesApart(before, x, y, after);
      KeysOfTwo(queue, x, y);
    }
    assert Arrange(keys, queue) == [y, x] by {
      PlacesApart(before, x, y, after);
      assert keys == Decimals([y, x]);
      ArrangeDecimals([y, x], queue);
    }
    FillAroundRun(keys, before, [x, y], after, [y, x]);
  }

  lemma SwapUsort(before: seq<PostId>, x: PostId, y: PostId, after: seq<PostId>)
    requires Distinct(before + [x, y] + after)
    ensures Usort([Decimal(y), Decimal(x)], before + [x, y] + after) == before + [y] + after + [x]
  {
    var queue := before + [x, y] + after;
    var later := [Decimal(x)];
    assert [Decimal(y), Decimal(x)][1..] == later;
    UnsentBesideOne(before, x, y, after);
    PlacesApart(before, x, y, after);
    assert later == Decimals([x]);
    ArrangeDecimals([x], queue);
    assert before + ([y] + after) + [x] == before + [y] + after + [x];
  }

  /** Only `x` is sent: the others stay, in order. */
  lemma UnsentBesideOne(before: seq<PostId>, x: PostId, y: PostId, after: seq<PostId>)
    requires Distinct(before + [x, y] + after)
    ensures Unsent([Decimal(x)], before + [x, y] + after) == before + ([y] + after)
  {
    var queue := before + [x, y] + after;
    var later := [Decimal(x)];
    assert NoneSent(later, before) && Covers(later, [x]) && NoneSent(later, [y] + after) by {
      PlacesApart(before, x, y, after);
      KeysOfTwo(queue, x, y);
    }
    assert queue == before + [x] + ([y] + after);
    UnsentAroundRun(later, before, [x], [y] + after);
  }

  /** Filling a queue whose sent posts form one run `run` between unsent
      runs puts `order` in place of the run. */
  lemma FillAroundRun(keys: seq<string>, before: seq<PostId>, run: seq<PostId>, after: seq<PostId>, order: seq<PostId>)
    requires NoneSent(keys, before) && Covers(keys, run) && NoneSent(keys, after)
    requires |order| == |run|
    ensures Fill(keys, before + run + after, order) == before + order + after
  {
    FillUnsentRun(keys, after, [], []);
    assert after + [] == after;
    FillSentRun(keys, run, after, order);
    assert order[..|run|] == order && order[|run|..] == [];
    FillUnsentRun(keys, before, run + after, order);
    assert before + run + after == before + (run + after);
    assert before + (order + after) == before + order + after;
  }

  /** Dropping the sent run between two unsent runs. */
  lemma UnsentAroundRun(keys: seq<string>, before: seq<PostId>, run: seq<PostId>, after: seq<PostId>)
    requires NoneSent(keys, before) && Covers(keys, run) && NoneSent(keys, after)
    ensures Unsent(keys, before + run + after) == before + after
  {
    UnsentAppend(keys, before + run, after);
    UnsentAppend(keys, before, run);
    UnsentKept(keys, before);
    UnsentKept(keys, after);
    UnsentCovered(keys, run);
    assert before + [] == before;
  }

  /** A queued post's key is among the keys of `x` and `y` exactly when it
      is one of them. */
  lemma KeysOfTwo(queue: seq<PostId>, x: PostId, y: PostId)
    ensures forall z :: z in queue ==> (Decimal(z) in [Decimal(y), Decimal(x)] <==> z == x || z == y)
    ensures forall z :: z in queue ==> (Decimal(z) in [Decimal(x)] <==> z == x)
  {
    forall z | z in queue
      ensures Decimal(z) in [Decimal(y), Decimal(x)] <==> z == x || z == y
      ensures Decimal(z) in [Decimal(x)] <==> z == x
    {
      ParseDecimal(z);
      ParseDecimal(x);
      ParseDecimal(y);
    }
  }

  /** Where each post of a queue `before + [x, y] + after` with no repeats
      lies: `x`, `y` and the posts of `before` and `after` are apart. */
  lemma PlacesApart(before: seq<PostId>, x: PostId, y: PostId, after: seq<PostId>)
    requires Distinct(before + [x, y] + after)
    ensures x != y && x !in before && x !in after && y !in before && y !in after
  {
    var q := before + [x, y] + after;
    var n := |before|;
    assert q[n] == x && q[n + 1] == y;
    assert forall i :: 0 <= i < n ==> q[i] == before[i];
    assert forall i :: 0 <= i < |after| ==> q[n + 2 + i] == after[i];
  }

  /** Reordering the first page of the post list, posts 1, 2 and 3 queued
      in that order: dragging 2 above 1 sends "2", "1"; the source puts the
      unsent post 3 between them, where the corrected sort keeps it last. */
  lemma PageTwoJumpsAhead()
    ensures Usort(["2", "1"], [1, 2, 3]) == [2, 3, 1]
    ensures Reorder(["2", "1"], [1, 2, 3]) == [2, 1, 3]
  {
    SmallKeys();
    assert [] + [1, 2] == [1, 2] && [] + [2, 1] == [2, 1] && [] + [2] == [2];
    assert [1, 2] + [3] == [1, 2, 3];
    SwapOnPage([], 1, 2, [3]);
    assert [2, 1] + [3] == [2, 1, 3];
    assert [2] + [3] == [2, 3];
    assert [2, 3] + [1] == [2, 3, 1];
  }

  /** Reordering the last page, posts 1 to 4 queued two to a page:
      dragging 4 above 3 sends "4", "3"; both sorts give 1, 2, 4, 3. */
  lemma LastPageAgrees()
    ensures Usort(["4", "3"], [1, 2, 3, 4]) == [1, 2, 4, 3]
    ensures Reorder(["4", "3"], [1, 2, 3, 4]) == [1, 2, 4, 3]
  {
    SmallKeys();
    assert [1, 2] + [3, 4] == [1, 2, 3, 4] && [1, 2, 3, 4] + [] == [1, 2, 3, 4];
    SwapOnPage([1, 2], 3, 4, []);
    assert [1, 2] + [4, 3] + [] == [1, 2] + [4, 3] && [1, 2] + [4] + [] == [1, 2] + [4];
    assert [1, 2] + [4, 3] == [1, 2, 4, 3];
    assert [1, 2] + [4] == [1, 2, 4];
    assert [1, 2, 4] + [3] == [1, 2, 4, 3];
  }

  /** Reordering the middle page, posts 1 to 6 queued two to a page:
      dragging 4 above 3 sends "4", "3"; the source moves post 3 behind
      posts 5 and 6, where the corrected sort swaps 3 and 4 in place. */
  lemma MiddlePageMovesToEnd()
    ensures Usort(["4", "3"], [1, 2, 3, 4, 5, 6]) == [1, 2, 4, 5, 6, 3]
    ensures Reorder(["4", "3"], [1, 2, 3, 4, 5, 6]) == [1, 2, 4, 3, 5, 6]
  {
    SmallKeys();
    assert [1, 2] + [3, 4] == [1, 2, 3, 4];
    assert [1, 2, 3, 4] + [5, 6] == [1, 2, 3, 4, 5, 6];
    SwapOnPage([1, 2], 3, 4, [5, 6]);
    assert [1, 2] + [4, 3] == [1, 2, 4, 3];
    assert [1, 2, 4, 3] + [5, 6] == [1, 2, 4, 3, 5, 6];
    assert [1, 2] + [4] == [1, 2, 4];
    assert [1, 2, 4] + [5, 6] == [1, 2, 4, 5, 6];
    assert [1, 2, 4, 5, 6] + [3] == [1, 2, 4, 5, 6, 3];
  }

  lemma SmallKeys()
    ensures Decimal(1) == "1" && Decimal(2) == "2" && Decimal(3) == "3"
    ensures Decimal(4) == "4" && Decimal(5) == "5" && Decimal(6) == "6"
  {
  }

  /** No post of the run `a` was sent. */
  predicate NoneSent(keys: seq<string>, a: seq<PostId>) {
    forall x :: x in a ==> Decimal(x) !in keys
  }

  /** Splitting the queue splits its unsent posts. */
  lemma {:induction false} UnsentAppend(keys: seq<string>, a: seq<PostId>, b: seq<PostId>)
    ensures Unsent(keys, a + b) == Unsent(keys, a) + Unsent(keys, b)
  {
    if a == [] {
      assert a + b == b;
    } else {
      var ab := a + b;
      assert ab[0] == a[0] && ab[1..] == a[1..] + b;
      UnsentAppend(keys, a[1..], b);
      var u, v := Unsent(keys, a[1..]), Unsent(keys, b);
      if Decimal(a[0]) in keys {
        assert Unsent(keys, ab) == u + v;
        assert Unsent(keys, a) == u;
      } else {
        assert Unsent(keys, ab) == [a[0]] + (u + v) == ([a[0]] + u) + v;
        assert Unsent(keys, a) == [a[0]] + u;
      }
    }
  }

  /** A run none of whose posts was sent is unsent as a whole. */
  lemma {:induction false} UnsentKept(keys: seq<string>, a: seq<PostId>)
    requires NoneSent(keys, a)
    ensures Unsent(keys, a) == a
  {
    if a != [] {
      assert a[0] in a;
      UnsentKept(keys, a[1..]);
      assert a == [a[0]] + a[1..];
    }
  }

  /** Filling a queue that starts with a run of sent posts puts the next
      posts of `order` in that run. */
  lemma {:induction false} FillSentRun(keys: seq<string>, a: seq<PostId>, b: seq<PostId>, order: seq<PostId>)
    requires Covers(keys, a) && |a| <= |order|
    ensures Fill(keys, a + b, order) == order[..|a|] + Fill(keys, b, order[|a|..])
  {
    if a == [] {
      assert a + b == b && order[..0] == [] && order[0..] == order;
    } else {
      var ab := a + b;
      assert ab[0] == a[0] && ab[1..] == a[1..] + b;
      assert a[0] in a;
      var rest := order[1..];
      FillSentRun(keys, a[1..], b, rest);
      var f := Fill(keys, b, rest[|a| - 1..]);
      assert rest[|a| - 1..] == order[|a|..];
      assert [order[0]] + rest[..|a| - 1] == order[..|a|];
      assert Fill(keys, ab, order) == [order[0]] + (rest[..|a| - 1] + f);
    }
  }

  /** Filling a queue that starts with a run of unsent posts leaves that
      run as it is. */
  lemma {:induction false} FillUnsentRun(keys: seq<string>, a: seq<PostId>, b: seq<PostId>, order: seq<PostId>)
    requires NoneSent(keys, a)
    ensures Fill(keys, a + b, order) == a + Fill(keys, b, order)
  {
    if a == [] {
      assert a + b == b;
    } else {
      var ab := a + b;
      assert ab[0] == a[0] && ab[1..] == a[1..] + b;
      assert a[0] in a;
      FillUnsentRun(keys, a[1..], b, order);
      assert a == [a[0]] + a[1..];
    }
  }

  /** When every queued post's id was sent, the sort is a permutation of the
      queue: one entry per queued post. */
  lemma ArrangePermutes(keys: seq<string>, queue: seq<PostId>)
    requires Distinct(queue)
    requires Covers(keys, queue)
    ensures IsPermutation(queue, Arrange(keys, queue))
  {
    ArrangeDistinctComplete(keys, queue);
    DistinctSameLength(queue, Arrange(keys, queue));
  }

  /** Sending the ids of a permutation of the queue, in order, gives that
      permutation back. */
  lemma {:induction false} ArrangeDecimals(ids: seq<PostId>, queue: seq<PostId>)
    requires Distinct(ids) && forall x :: x in ids ==> x in queue
    ensures Arrange(Decimals(ids), queue) == ids
  {
    if ids != [] {
      var keys := Decimals(ids);
      assert keys[1..] == Decimals(ids[1..]);
      ArrangeDecimals(ids[1..], queue);
      ParseDecimal(ids[0]);
      if keys[0] in keys[1..] {
        var k :| 1 <= k < |keys| && keys[k] == keys[0];
        ParseDecimal(ids[k]);
        assert false;
      }
    }
  }

  /** The keys the post list sends after a drag: "post-" and the id. */
  function Prefixed(ids: seq<PostId>): (keys: seq<string>)
    ensures |keys| == |ids|
    ensures forall i {:trigger keys[i]} :: 0 <= i < |ids| ==> keys[i] == PREFIX + Decimal(ids[i])
  {
    if ids == [] then [] else [PREFIX + Decimal(ids[0])] + Prefixed(ids[1..])
  }

  lemma StripKeys(ids: seq<PostId>)
    ensures StripAll(Decimals(ids)) == Decimals(ids)
    ensures StripAll(Prefixed(ids)) == Decimals(ids)
  {
    forall i | 0 <= i < |ids|
      ensures StripPostPrefix(Decimal(ids[i])) == Decimal(ids[i])
      ensures StripPostPrefix(PREFIX + Decimal(ids[i])) == Decimal(ids[i])
    {
      StripDecimal(ids[i]);
    }
  }

  /** A reorder request that lists the queued posts in some order, by bare
      ids or by "post-" keys, is carried out in exactly that order; in
      particular the first id requested comes first. */
  lemma RequestedOrderKept(ids: seq<PostId>, queue: seq<PostId>)
    requires IsPermutation(queue, ids)
    ensures Arrange(StripAll(Decimals(ids)), queue) == ids
    ensures Arrange(StripAll(Prefixed(ids)), queue) == ids
    ensures Covers(StripAll(Decimals(ids)), queue) && Covers(StripAll(Prefixed(ids)), queue)
    ensures Reorder(StripAll(Decimals(ids)), queue) == ids
    ensures Reorder(StripAll(Prefixed(ids)), queue) == ids
  {
    StripKeys(ids);
    ArrangeDecimals(ids, queue);
    forall x | x in queue
      ensures Decimal(x) in Decimals(ids)
    {
      var k :| 0 <= k < |ids| && ids[k] == x;
      assert Decimals(ids)[k] == Decimal(x);
    }
    SortsAgreeWhenCovered(Decimals(ids), queue);
  }

  /** A post list with a head is duplicate-free exactly when its tail is and
      does not hold the head. */
  lemma DistinctCons(x: PostId, s: seq<PostId>)
    ensures Distinct([x] + s) <==> x !in s && Distinct(s)
  {
    var xs := [x] + s;
    if Distinct(xs) {
      forall i, j | 0 <= i < j < |s|
        ensures s[i] != s[j]
      {
        assert xs[i + 1] == s[i] && xs[j + 1] == s[j];
      }
      forall k | 0 <= k < |s|
        ensures s[k] != x
      {
        assert xs[k + 1] == s[k] && xs[0] == x;
      }
    }
    if x !in s && Distinct(s) {
      forall i, j | 0 <= i < j < |xs|
        ensures xs[i] != xs[j]
      {
        assert xs[j] == s[j - 1];
        if i > 0 {
          assert xs[i] == s[i - 1];
        }
      }
    }
  }

  /** Two duplicate-free lists with no element in common concatenate to
      a duplicate-free list. */
  lemma DistinctAppend(x: seq<PostId>, y: seq<PostId>)
    requires Distinct(x) && Distinct(y)
    requires forall v :: v in x ==> v !in y
    ensures Distinct(x + y)
  {
    var xy := x + y;
    forall i, j | 0 <= i < j < |xy|
      ensures xy[i] != xy[j]
    {
      if i < |x| && j >= |x| {
        assert xy[i] == x[i] && x[i] in x;
        assert xy[j] == y[j - |x|] && y[j - |x|] in y;
      } else if j < |x| {
        assert xy[i] == x[i] && xy[j] == x[j];
      } else {
        assert xy[i] == y[i - |x|] && xy[j] == y[j - |x|];
      }
    }
  }

  /** Two duplicate-free lists with the same elements have the same length. */
  lemma DistinctSameLength(a: seq<PostId>, b: seq<PostId>)
    requires Distinct(a) && Distinct(b)
    requires forall x :: x in a <==> x in b
    ensures |a| == |b|
  {
    DistinctCard(a);
    DistinctCard(b);
    assert Elements(a) == Elements(b);
  }

  function Elements(s: seq<PostId>): (r: set<PostId>)
    ensures forall x :: x in r <==> x in s
  {
    if s == [] then {} else {s[0]} + Elements(s[1..])
  }

  lemma {:induction false} DistinctCard(s: seq<PostId>)
    requires Distinct(s)
    ensures |Elements(s)| == |s|
  {
    if s != [] {
      DistinctCard(s[1..]);
      assert s[0] !in Elements(s[1..]);
    }
  }
}
