/**
 * The picture list of the listing form (`components/ImageUploader`): adding
 * uploaded groups up to the limit of eight, deleting one group, and the
 * indices a drag-and-drop move resolves to. Each selected file's upload
 * outcome is an input.
 */
module ImageUploader {
  import opened Wrappers
  import opened Strings
  import opened TyreTypes

  const MaxImages := 8

  /** How the upload of one file ended: a group of renditions, a non-OK response, or an exception. */
  datatype UploadResult = Uploaded(group: ImageGroup) | NotOk | Threw

  /**
   * The list after `readFiles`, the number of files sent, whether the limit
   * warning was shown, and whether `onImagesChange` was called at all.
   */
  datatype Upload = Upload(images: seq<ImageGroup>, sent: nat, limitWarned: bool, written: bool)

  /** The groups of the uploads that succeeded with at least one rendition, in file order. */
  function SuccessfulGroups(rs: seq<UploadResult>): (r: seq<ImageGroup>)
    ensures |r| <= |rs|
    ensures forall i :: 0 <= i < |r| ==> |r[i]| > 0
    ensures forall g :: g in r <==> Uploaded(g) in rs && |g| > 0
  {
    if |rs| == 0 then []
    else
      var rest := SuccessfulGroups(rs[1..]);
      assert forall x :: x in rs <==> x == rs[0] || x in rs[1..];
      if rs[0].Uploaded? && |rs[0].group| > 0 then [rs[0].group] + rest else rest
  }

  /** Groups are collected batch by batch: the outcome of a longer selection extends the shorter one's. */
  lemma {:induction false} SuccessfulGroupsConcat(a: seq<UploadResult>, b: seq<UploadResult>)
    ensures SuccessfulGroups(a + b) == SuccessfulGroups(a) + SuccessfulGroups(b)
  {
    if |a| == 0 {
      assert a + b == b;
    } else {
      assert (a + b)[1..] == a[1..] + b;
      SuccessfulGroupsConcat(a[1..], b);
    }
  }

  function Min(a: int, b: int): int {
    if a <= b then a else b
  }

  /** The number of files `readFiles` sends when it counted `seen` pictures: none at the limit, else the free slots at most. */
  function SentCount(seen: nat, results: seq<UploadResult>): (n: nat)
    ensures n <= |results|
    ensures seen >= MaxImages ==> n == 0
    ensures seen < MaxImages ==> n == Min(MaxImages - seen, |results|) && n <= MaxImages - seen
  {
    if seen >= MaxImages then 0 else Min(MaxImages - seen, |results|)
  }

  /** The groups a settled selection contributes: none if an upload threw, else the good groups in file order. */
  function Added(seen: nat, results: seq<UploadResult>): (r: seq<ImageGroup>)
    ensures |r| <= SentCount(seen, results)
    ensures Threw in results[..SentCount(seen, results)] ==> r == []
    ensures Threw !in results[..SentCount(seen, results)] ==> r == SuccessfulGroups(results[..SentCount(seen, results)])
  {
    var batch := results[..SentCount(seen, results)];
    if Threw in batch then [] else SuccessfulGroups(batch)
  }

  /**
   * `readFiles` on the picture list `images` of the render whose handler took
   * the selection. The form's `onImagesChange` resolves the `prev =>` updater
   * against that same render's `values.images`, so the free slots are counted
   * from, and the groups appended to, this one snapshot. With eight or more
   * pictures nothing is sent and the list is kept; otherwise only as many
   * files as there are free slots are sent, from the front of the selection.
   * If any of those uploads throws, the list is kept; else the successful
   * non-empty groups are appended in file order. Only on that last path is
   * `onImagesChange` called: the early return at the limit and the `catch`
   * write nothing.
   */
  function ReadFiles(images: seq<ImageGroup>, results: seq<UploadResult>): (r: Upload)
    ensures r.limitWarned <==> |images| >= MaxImages
    ensures |images| >= MaxImages ==> r.images == images && r.sent == 0
    ensures |images| < MaxImages ==> r.sent == Min(MaxImages - |images|, |results|)
    ensures r.sent <= |results| && |images| <= |r.images| && r.images[..|images|] == images
    ensures Threw in results[..r.sent] ==> r.images == images
    ensures Threw !in results[..r.sent] ==> r.images == images + SuccessfulGroups(results[..r.sent])
    ensures |images| <= MaxImages ==> |r.images| <= MaxImages
    ensures r.written <==> |images| < MaxImages && Threw !in results[..r.sent]
    ensures !r.written ==> r.images == images
  {
    var sent := SentCount(|images|, results);
    var added := Added(|images|, results);
    assert (images + added)[..|images|] == images;
    Upload(images + added, sent, |images| >= MaxImages, |images| < MaxImages && Threw !in results[..sent])
  }

  /** A selection: the picture list of the render whose handler took it, and how each file's upload ended. */
  datatype Selection = Selection(snapshot: seq<ImageGroup>, results: seq<UploadResult>)

  /** Whether the selection, once settled, calls `onImagesChange`: below the limit, and no sent upload threw. */
  predicate Writes(c: Selection) {
    |c.snapshot| < MaxImages && Threw !in c.results[..SentCount(|c.snapshot|, c.results)]
  }

  /** What a writing selection writes: its snapshot followed by its groups. */
  function Written(c: Selection): seq<ImageGroup> {
    c.snapshot + Added(|c.snapshot|, c.results)
  }

  /**
   * The form's list after selections settle in the given order, as written:
   * each settled selection that writes replaces the list with its own
   * snapshot plus its groups, whatever the list had become in the meantime;
   * one that hit the limit or whose upload threw leaves the list alone.
   */
  function AfterSettles(images: seq<ImageGroup>, cs: seq<Selection>): seq<ImageGroup>
    decreases |cs|
  {
    if |cs| == 0 then images else AfterSettles(Settle(images, cs[0]), cs[1..])
  }

  /** The list once one selection settles on it, as written. */
  function Settle(images: seq<ImageGroup>, c: Selection): seq<ImageGroup> {
    if Writes(c) then Written(c) else images
  }

  /** One settle step is `readFiles` on the selection's snapshot: it writes exactly when `readFiles` calls `onImagesChange`, and then what `readFiles` computed. */
  lemma SettleIsReadFiles(images: seq<ImageGroup>, c: Selection)
    ensures Writes(c) <==> ReadFiles(c.snapshot, c.results).written
    ensures Settle(images, c) == if ReadFiles(c.snapshot, c.results).written then ReadFiles(c.snapshot, c.results).images else images
  {
  }

  /** As written, when no selection writes, the list is left as it was. */
  lemma {:induction false} SettlesWithoutWrites(images: seq<ImageGroup>, cs: seq<Selection>)
    requires forall j :: 0 <= j < |cs| ==> !Writes(cs[j])
    ensures AfterSettles(images, cs) == images
    decreases |cs|
  {
    if |cs| > 0 {
      assert !Writes(cs[0]);
      assert forall j :: 0 <= j < |cs| - 1 ==> cs[1..][j] == cs[j + 1];
      SettlesWithoutWrites(images, cs[1..]);
    }
  }

  /** The last selection to write decides the list, stated over the settle step. */
  lemma {:induction false} SettlesKeepLastWrite(images: seq<ImageGroup>, cs: seq<Selection>, k: nat)
    requires k < |cs| && Writes(cs[k])
    requires forall j :: k < j < |cs| ==> !Writes(cs[j])
    ensures AfterSettles(images, cs) == Written(cs[k])
    decreases |cs|
  {
    var next := Settle(images, cs[0]);
    var rest := cs[1..];
    assert AfterSettles(images, cs) == AfterSettles(next, rest);
    assert forall j :: 0 <= j < |rest| ==> rest[j] == cs[j + 1];
    if k == 0 {
      SettlesWithoutWrites(next, rest);
    } else {
      SettlesKeepLastWrite(next, rest, k - 1);
    }
  }

  /**
   * As written, the last selection to write decides the list: every earlier
   * write is overwritten, and the selections after it write nothing.
   */
  lemma SettlesKeepOnlyLast(images: seq<ImageGroup>, cs: seq<Selection>, k: nat)
    requires k < |cs| && ReadFiles(cs[k].snapshot, cs[k].results).written
    requires forall j :: k < j < |cs| ==> !ReadFiles(cs[j].snapshot, cs[j].results).written
    ensures AfterSettles(images, cs) == ReadFiles(cs[k].snapshot, cs[k].results).images
  {
    assert forall j :: k < j < |cs| ==> !Writes(cs[j]) by {
      forall j | k < j < |cs| {
        SettleIsReadFiles(images, cs[j]);
      }
    }
    SettlesKeepLastWrite(images, cs, k);
  }

  /** As written, a selection whose upload throws leaves the list as the earlier selections wrote it. */
  lemma ThrowingSelectionWritesNothing(images: seq<ImageGroup>, g1: ImageGroup)
    requires |images| == MaxImages - 2 && |g1| > 0
    ensures AfterSettles(images, [Selection(images, [Uploaded(g1)]), Selection(images, [Threw])]) == images + [g1]
  {
    var c1, c2 := Selection(images, [Uploaded(g1)]), Selection(images, [Threw]);
    AddedOfOneGoodFile(|images|, g1);
    assert Writes(c1) by {
      var b1: seq<UploadResult> := [Uploaded(g1)];
      assert b1[..1] == b1;
    }
    assert !Writes(c2) by {
      var b2: seq<UploadResult> := [Threw];
      assert b2[..1] == b2;
    }
    SettlesKeepLastWrite(images, [c1, c2], 0);
  }

  /** As written, the limit holds whatever order selections settle in, since each write is a snapshot of at most eight plus its free slots. */
  lemma {:induction false} SettlesStayBounded(images: seq<ImageGroup>, cs: seq<Selection>)
    requires |images| <= MaxImages
    requires forall k :: 0 <= k < |cs| ==> |cs[k].snapshot| <= MaxImages
    ensures |AfterSettles(images, cs)| <= MaxImages
    decreases |cs|
  {
    if |cs| > 0 {
      var next := Settle(images, cs[0]);
      assert forall k :: 0 <= k < |cs| - 1 ==> cs[1..][k] == cs[k + 1];
      SettlesStayBounded(next, cs[1..]);
    }
  }

  /**
   * Six pictures; two one-file selections handled by the same render, both
   * settling: the list ends with seven, and the first selection's picture is
   * lost.
   */
  lemma OverlappingSelectionsLoseFirst(images: seq<ImageGroup>, g1: ImageGroup, g2: ImageGroup)
    requires |images| == MaxImages - 2 && |g1| > 0 && |g2| > 0
    requires g1 != g2 && g1 !in images
    ensures var r := AfterSettles(images, [Selection(images, [Uploaded(g1)]), Selection(images, [Uploaded(g2)])]);
      r == images + [g2] && |r| == MaxImages - 1 && g1 !in r
  {
    var cs := [Selection(images, [Uploaded(g1)]), Selection(images, [Uploaded(g2)])];
    AddedOfOneGoodFile(|images|, g2);
    assert Writes(cs[1]) by {
      var b2: seq<UploadResult> := [Uploaded(g2)];
      assert b2[..1] == b2;
    }
    SettlesKeepLastWrite(images, cs, 1);
  }

  /**
   * `readFiles` with the `prev =>` updater applied to the latest list: the
   * same uploads as `ReadFiles` counted from `seen`, the snapshot's length,
   * but the groups are appended to `latest`, and no more of them than
   * `latest` has free slots.
   */
  function ReadFilesToLatest(seen: nat, latest: seq<ImageGroup>, results: seq<UploadResult>): (r: Upload)
    ensures r.limitWarned <==> seen >= MaxImages
    ensures r.sent == SentCount(seen, results)
    ensures r.written <==> seen < MaxImages && Threw !in results[..r.sent]
    ensures |latest| <= |r.images| && r.images[..|latest|] == latest
    ensures |r.images| - |latest| <= |Added(seen, results)|
    ensures r.images == latest + Added(seen, results)[..|r.images| - |latest|]
    ensures |latest| <= MaxImages ==> |r.images| <= MaxImages
    ensures |latest| + |Added(seen, results)| <= MaxImages ==> r.images == latest + Added(seen, results)
    ensures seen == |latest| ==> r == ReadFiles(latest, results)
  {
    var added := Added(seen, results);
    var room := if |latest| >= MaxImages then 0 else MaxImages - |latest|;
    var kept := if |added| <= room then added else added[..room];
    assert (latest + kept)[..|latest|] == latest;
    assert |added| <= room ==> added[..|added|] == added;
    var sent := SentCount(seen, results);
    Upload(latest + kept, sent, seen >= MaxImages, seen < MaxImages && Threw !in results[..sent])
  }

  /** The list after selections settle in the given order, each appended to the list as it then is. */
  function AfterSettlesToLatest(images: seq<ImageGroup>, cs: seq<Selection>): seq<ImageGroup>
    decreases |cs|
  {
    if |cs| == 0 then images
    else AfterSettlesToLatest(ReadFilesToLatest(|cs[0].snapshot|, images, cs[0].results).images, cs[1..])
  }

  /** Appended to the latest list, selections settling in any order keep at most eight pictures and lose none already there. */
  lemma {:induction false} LatestSettlesStayBounded(images: seq<ImageGroup>, cs: seq<Selection>)
    requires |images| <= MaxImages
    ensures |AfterSettlesToLatest(images, cs)| <= MaxImages
    ensures |images| <= |AfterSettlesToLatest(images, cs)|
    ensures AfterSettlesToLatest(images, cs)[..|images|] == images
    decreases |cs|
  {
    if |cs| > 0 {
      var next := ReadFilesToLatest(|cs[0].snapshot|, images, cs[0].results).images;
      LatestSettlesStayBounded(next, cs[1..]);
      var r := AfterSettlesToLatest(next, cs[1..]);
      assert r[..|images|] == r[..|next|][..|images|];
    }
  }

  /** One good file selected below the limit contributes exactly its group. */
  lemma AddedOfOneGoodFile(seen: nat, g: ImageGroup)
    requires seen < MaxImages && |g| > 0
    ensures Added(seen, [Uploaded(g)]) == [g]
  {
    var batch: seq<UploadResult> := [Uploaded(g)];
    assert SentCount(seen, batch) == 1;
    assert batch[..1] == batch;
    assert SuccessfulGroups(batch) == [g];
  }

  /** One good file, counted below the limit, settling on a list with room for it appends its group. */
  lemma LatestOneGoodFile(seen: nat, latest: seq<ImageGroup>, g: ImageGroup)
    requires seen < MaxImages && |latest| < MaxImages && |g| > 0
    ensures ReadFilesToLatest(seen, latest, [Uploaded(g)]).images == latest + [g]
  {
    AddedOfOneGoodFile(seen, g);
  }

  /** The first selection to settle appends to the list before the rest settle. */
  lemma AfterSettlesToLatestCons(images: seq<ImageGroup>, c: Selection, cs: seq<Selection>)
    ensures AfterSettlesToLatest(images, [c] + cs)
      == AfterSettlesToLatest(ReadFilesToLatest(|c.snapshot|, images, c.results).images, cs)
  {
    assert ([c] + cs)[0] == c;
    assert ([c] + cs)[1..] == cs;
  }

  /** The overlapping selections of `OverlappingSelectionsLoseFirst`, appended to the latest list, keep both pictures. */
  lemma OverlappingSelectionsKeepBoth(images: seq<ImageGroup>, g1: ImageGroup, g2: ImageGroup)
    requires |images| == MaxImages - 2 && |g1| > 0 && |g2| > 0
    ensures AfterSettlesToLatest(images, [Selection(images, [Uploaded(g1)]), Selection(images, [Uploaded(g2)])])
      == images + [g1, g2]
  {
    var c1, c2 := Selection(images, [Uploaded(g1)]), Selection(images, [Uploaded(g2)]);
    calc {
      AfterSettlesToLatest(images, [c1, c2]);
    == { assert [c1, c2] == [c1] + [c2]; AfterSettlesToLatestCons(images, c1, [c2]); }
      AfterSettlesToLatest(ReadFilesToLatest(|images|, images, [Uploaded(g1)]).images, [c2]);
    == { LatestOneGoodFile(|images|, images, g1); }
      AfterSettlesToLatest(images + [g1], [c2]);
    == { assert [c2] == [c2] + []; AfterSettlesToLatestCons(images + [g1], c2, []); }
      AfterSettlesToLatest(ReadFilesToLatest(|images|, images + [g1], [Uploaded(g2)]).images, []);
    == { LatestOneGoodFile(|images|, images + [g1], g2); }
      images + [g1] + [g2];
    == { assert images + [g1] + [g2] == images + [g1, g2]; }
      images + [g1, g2];
    }
  }

  /** Selections one after the other, each taken by a render that already shows the previous one's pictures. */
  lemma {:induction false} UploadRoundsStayBounded(images: seq<ImageGroup>, rounds: seq<seq<UploadResult>>)
    requires |images| <= MaxImages
    ensures |AfterRounds(images, rounds)| <= MaxImages
    ensures |images| <= |AfterRounds(images, rounds)|
    decreases |rounds|
  {
    if |rounds| > 0 {
      var next := ReadFiles(images, rounds[0]).images;
      UploadRoundsStayBounded(next, rounds[1..]);
    }
  }

  /** The list after several selections, each handled after the previous one settled and re-rendered. */
  function AfterRounds(images: seq<ImageGroup>, rounds: seq<seq<UploadResult>>): seq<ImageGroup>
    decreases |rounds|
  {
    if |rounds| == 0 then images else AfterRounds(ReadFiles(images, rounds[0]).images, rounds[1..])
  }

  /** One after the other, as written and appended to the latest list agree. */
  lemma {:induction false} RoundsAgreeWithLatest(images: seq<ImageGroup>, rounds: seq<seq<UploadResult>>)
    ensures AfterRounds(images, rounds) == AfterSettlesToLatest(images, RoundsAsSelections(images, rounds))
    decreases |rounds|
  {
    if |rounds| > 0 {
      var next := ReadFiles(images, rounds[0]).images;
      RoundsAgreeWithLatest(next, rounds[1..]);
    }
  }

  /** Each round as a selection taken by the render that shows the list before it. */
  function RoundsAsSelections(images: seq<ImageGroup>, rounds: seq<seq<UploadResult>>): (cs: seq<Selection>)
    ensures |cs| == |rounds|
    ensures |rounds| > 0 ==> cs[0] == Selection(images, rounds[0])
    ensures |rounds| > 0 ==> cs[1..] == RoundsAsSelections(ReadFiles(images, rounds[0]).images, rounds[1..])
    decreases |rounds|
  {
    if |rounds| == 0 then []
    else [Selection(images, rounds[0])] + RoundsAsSelections(ReadFiles(images, rounds[0]).images, rounds[1..])
  }

  /**
   * `prev.filter((_, i) => i !== index)` on the part of the list that starts
   * at position `from`.
   */
  function DropAt(xs: seq<ImageGroup>, index: int, from: int): (r: seq<ImageGroup>)
    ensures from <= index < from + |xs| ==> r == xs[..index - from] + xs[index - from + 1..]
    ensures !(from <= index < from + |xs|) ==> r == xs
  {
    if |xs| == 0 then []
    else
      var rest := DropAt(xs[1..], index, from + 1);
      if from == index then
        rest
      else
        assert [xs[0]] + xs[1..] == xs;
        assert from < index < from + |xs| ==> [xs[0]] + xs[1..][..index - from - 1] == xs[..index - from];
        [xs[0]] + rest
  }

  /** `handleDeleteImage(index)`: removes exactly the group at `index`; any other index changes nothing. */
  function DeleteImage(images: seq<ImageGroup>, index: int): (r: seq<ImageGroup>)
    ensures 0 <= index < |images| ==> r == images[..index] + images[index + 1..]
    ensures !(0 <= index < |images|) ==> r == images
  {
    DropAt(images, index, 0)
  }

  /** Putting the deleted group back at its index restores the list. */
  lemma DeleteThenReinsert(images: seq<ImageGroup>, index: int)
    requires 0 <= index < |images|
    ensures var r := DeleteImage(images, index);
      |r| == |images| - 1 && r[..index] + [images[index]] + r[index..] == images
  {
    var r := DeleteImage(images, index);
    assert r[..index] == images[..index];
    assert r[index..] == images[index + 1..];
  }

  /** The position whose sortable id (`i.toString()`) is `id`, searching from `k`; -1 if none. */
  function IndexOfId(k: nat, count: nat, id: string): (r: int)
    ensures r == -1 || (k <= r < count && IntToString(r) == id)
    ensures r == -1 ==> forall j :: k <= j < count ==> IntToString(j) != id
    ensures r != -1 ==> forall j :: k <= j < r ==> IntToString(j) != id
    decreases count - k
  {
    if k >= count then -1
    else if IntToString(k) == id then k
    else IndexOfId(k + 1, count, id)
  }

  /** Every position is found by its own id. */
  lemma IndexOfOwnId(count: nat, i: nat)
    requires i < count
    ensures IndexOfId(0, count, IntToString(i)) == i
  {
    var r := IndexOfId(0, count, IntToString(i));
    assert r != -1;
    IntToStringInjective(r, i);
  }

  /** The `arrayMove(prev, from, to)` a drop asks for. */
  datatype Move = Move(from: int, to: int)

  /**
   * `handleDragEnd`: a drop over the dragged item itself changes nothing;
   * otherwise the move goes from the dragged item's position to the position
   * under the cursor (-1 where no item has the id).
   */
  function DragEnd(count: nat, activeId: string, overId: Option<string>): (r: Option<Move>)
    ensures r.None? <==> overId == Some(activeId)
    ensures r.Some? ==> r.value.from == IndexOfId(0, count, activeId)
    ensures r.Some? && overId.None? ==> r.value.to == -1
    ensures r.Some? && overId.Some? ==> r.value.to == IndexOfId(0, count, overId.value)
  {
    if overId == Some(activeId) then None
    else
      var to := if overId.Some? then IndexOfId(0, count, overId.value) else -1;
      Some(Move(IndexOfId(0, count, activeId), to))
  }

  /** Dragging item `i` onto a different item `j` moves from `i` to `j`. */
  lemma DragBetweenItems(count: nat, i: nat, j: nat)
    requires i < count && j < count && i != j
    ensures DragEnd(count, IntToString(i), Some(IntToString(j))) == Some(Move(i, j))
  {
    IndexOfOwnId(count, i);
    IndexOfOwnId(count, j);
    if IntToString(i) == IntToString(j) {
      IntToStringInjective(i, j);
    }
  }
}
