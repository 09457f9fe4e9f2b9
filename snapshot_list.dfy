/** copy_snapshot_list: pages bulk-attribute records out of the filesystem's snapshot
    enumerator and packs the names of the named ones into a single allocation that holds
    an index of 257 slots followed by the NUL-terminated names. */
module SnapshotList {
  import opened Bytes
  import opened CStrings

  /** MAXPATHLEN: the size of a record's name field, and the growth step of the allocation. */
  const MaxPathLen: nat := 1024
  /** sizeof(char *). */
  const PointerSize: nat := 8
  /** Index slots: at most 256 names and one NULL terminator. */
  const IndexSlots: nat := 257
  const MaxSnapshots: nat := 256
  /** Where the names region starts: right after the index (initial nameOffset). */
  const NameBase: nat := IndexSlots * PointerSize
  /** The first allocation: the index and one MAXPATHLEN of names. */
  const InitialSize: nat := NameBase + MaxPathLen

  /** One bulk-attribute record of a page: its self-reported length, whether ATTR_CMN_NAME is
      set in its returned common attributes, and its name (without the NUL). */
  datatype Record = Record(length: nat, hasName: bool, name: seq<byte>)

  /** One call of the enumerator: a page of records (the record count is the page's size, and
      an empty page is the return value 0, exhaustion), or a negative return, an error. */
  datatype Reply = Page(records: seq<Record>) | Error

  /** The reply of call number k; after the given replies the enumerator is exhausted. */
  function ReplyAt(replies: seq<Reply>, k: nat): Reply
  {
    if k < |replies| then replies[k] else Page([])
  }

  /** A name a record can carry: a C string that fits, with its NUL, in the MAXPATHLEN field. */
  predicate NameFits(name: seq<byte>)
  {
    IsCString(name) && |name| < MaxPathLen
  }

  /** What the enumerator guarantees of a record: a positive length that leads to the next
      record, and a name that fits its field when the name bit is set. */
  predicate WellFormedRecord(r: Record)
  {
    r.length > 0 && (r.hasName ==> NameFits(r.name))
  }

  predicate WellFormedReplies(replies: seq<Reply>)
  {
    forall k :: 0 <= k < |replies| ==>
      replies[k].Page? ==> forall j :: 0 <= j < |replies[k].records| ==> WellFormedRecord(replies[k].records[j])
  }

  // ---------------------------------------------------------------------------------------
  // Walking a page by the records' lengths

  /** The byte offset at which record i of a page starts: the lengths of the records before it. */
  function StartOf(page: seq<Record>, i: nat): nat
    requires i <= |page|
  {
    if i == 0 then 0 else page[0].length + StartOf(page[1..], i - 1)
  }

  /** The record that starts at byte offset `at` of a page, if one does. */
  function RecordAt(page: seq<Record>, at: nat): Option<Record>
  {
    if page == [] then None
    else if at == 0 then Some(page[0])
    else if at < page[0].length then None
    else RecordAt(page[1..], at - page[0].length)
  }

  /** Advancing by a record's length moves from the start of record i to that of record i + 1. */
  lemma {:induction false} StartOfNext(page: seq<Record>, i: nat)
    requires i < |page|
    ensures StartOf(page, i + 1) == StartOf(page, i) + page[i].length
  {
    if i > 0 {
      StartOfNext(page[1..], i - 1);
    }
  }

  /** With positive lengths, the record found at record i's start offset is record i. */
  lemma {:induction false} RecordAtStart(page: seq<Record>, i: nat)
    requires forall j :: 0 <= j < |page| ==> page[j].length > 0
    requires i < |page|
    ensures RecordAt(page, StartOf(page, i)) == Some(page[i])
  {
    if i > 0 {
      RecordAtStart(page[1..], i - 1);
    }
  }

  // ---------------------------------------------------------------------------------------
  // What the lister returns

  /** The name a record contributes: its name when the name bit is set, nothing otherwise. */
  function NameOf(r: Record): seq<seq<byte>>
  {
    if r.hasName then [r.name] else []
  }

  /** The names of the records whose name bit is set, in page order. */
  function NamedOf(page: seq<Record>): seq<seq<byte>>
  {
    if page == [] then [] else NameOf(page[0]) + NamedOf(page[1..])
  }

  /** The names on the pages the lister reads: every page before the first empty reply or error. */
  function Visited(replies: seq<Reply>): seq<seq<byte>>
  {
    if replies == [] then []
    else match replies[0]
      case Error => []
      case Page(records) => if records == [] then [] else NamedOf(records) + Visited(replies[1..])
  }

  /** The enumeration stops on an error rather than on exhaustion. */
  predicate EndsInError(replies: seq<Reply>)
  {
    replies != [] &&
    match replies[0]
    case Error => true
    case Page(records) => records != [] && EndsInError(replies[1..])
  }

  /** The names region: each name followed by its NUL, one after the other. */
  function Packed(names: seq<seq<byte>>): seq<byte>
  {
    if names == [] then [] else Packed(names[..|names| - 1]) + names[|names| - 1] + [0]
  }

  /** Every name fits its field. */
  predicate AllFit(names: seq<seq<byte>>)
  {
    names == [] || (AllFit(names[..|names| - 1]) && NameFits(names[|names| - 1]))
  }

  lemma {:induction false} AllFitAt(names: seq<seq<byte>>, k: nat)
    requires AllFit(names) && k < |names|
    ensures NameFits(names[k])
  {
    if k < |names| - 1 {
      AllFitAt(names[..|names| - 1], k);
    }
  }

  /** The index for these names: slot k holds the offset at which name k starts, every slot
      after the last name is NULL. */
  function IndexOf(names: seq<seq<byte>>): (index: seq<nat>)
    ensures |index| == IndexSlots
  {
    seq(IndexSlots, k requires 0 <= k < IndexSlots =>
      if k < |names| then NameBase + |Packed(names[..k])| else 0)
  }

  /** MAXPATHLEN units of names region the allocation has once `used` bytes of names are
      stored: one to start with, one more whenever a name does not fit. */
  function Units(used: nat): (u: nat)
    ensures u >= 1
  {
    if used <= MaxPathLen then 1 else 1 + Units(used - MaxPathLen)
  }

  /** snapshots_size once `used` bytes of names are stored. */
  function Capacity(used: nat): nat
  {
    NameBase + MaxPathLen * Units(used)
  }

  /** The result of copy_snapshot_list for these replies when an allocation of more than
      `memLimit` bytes fails: None for NULL, otherwise the names the index lists. At most 256
      names are kept: with more, the list stops at 256 whatever follows (even an error). */
  function Expected(replies: seq<Reply>, memLimit: nat): Option<seq<seq<byte>>>
  {
    var names := Visited(replies);
    var kept := if |names| > MaxSnapshots then names[..MaxSnapshots] else names;
    if Capacity(|Packed(kept)|) > memLimit then None
    else if |names| <= MaxSnapshots && EndsInError(replies) then None
    else Some(kept)
  }

  /** A record contributes its name, if it has one, ahead of the names of the records after it. */
  lemma NamedOfStep(page: seq<Record>, i: nat)
    requires i < |page|
    ensures NamedOf(page[i..]) == NameOf(page[i]) + NamedOf(page[i + 1..])
  {
    assert page[i..][1..] == page[i + 1..];
  }

  /** The names of two runs of records are those of the first run, then those of the second. */
  lemma {:induction false} NamedOfAppend(a: seq<Record>, b: seq<Record>)
    ensures NamedOf(a + b) == NamedOf(a) + NamedOf(b)
  {
    if a != [] {
      assert (a + b)[0] == a[0] && (a + b)[1..] == a[1..] + b;
      NamedOfAppend(a[1..], b);
    } else {
      assert a + b == b;
    }
  }

  /** Record i contributes its name, if it has one, after the names of the records before it
      and ahead of those after it: the named records in page order, the others skipped. */
  lemma NamedOfSplit(page: seq<Record>, i: nat)
    requires i < |page|
    ensures NamedOf(page) == NamedOf(page[..i]) + NameOf(page[i]) + NamedOf(page[i + 1..])
  {
    assert page == page[..i] + page[i..];
    NamedOfAppend(page[..i], page[i..]);
    NamedOfStep(page, i);
  }

  /** A call that returns a non-empty page contributes its names and the enumeration goes on. */
  lemma VisitedStep(replies: seq<Reply>, call: nat)
    requires call < |replies| && replies[call].Page? && replies[call].records != []
    ensures Visited(replies[call..]) == NamedOf(replies[call].records) + Visited(replies[call + 1..])
    ensures EndsInError(replies[call..]) == EndsInError(replies[call + 1..])
  {
    assert replies[call..][1..] == replies[call + 1..];
  }

  // ---------------------------------------------------------------------------------------
  // Lemmas about the names region and its growth

  lemma {:induction false} PackedAppend(a: seq<seq<byte>>, b: seq<seq<byte>>)
    ensures Packed(a + b) == Packed(a) + Packed(b)
  {
    if b == [] {
      assert a + b == a;
    } else {
      var c := a + b;
      var b' := b[..|b| - 1];
      assert c[..|c| - 1] == a + b';
      assert c[|c| - 1] == b[|b| - 1];
      PackedAppend(a, b');
    }
  }

  /** Packing one more name appends it and its NUL. */
  lemma PackedAppendOne(names: seq<seq<byte>>, name: seq<byte>)
    ensures Packed(names + [name]) == Packed(names) + (name + [0])
  {
    assert (names + [name])[..|names|] == names;
  }

  /** Storing one more name fills the first NULL slot with the offset just past the names. */
  lemma IndexOfAppend(names: seq<seq<byte>>, name: seq<byte>)
    requires |names| < IndexSlots
    ensures IndexOf(names + [name]) == IndexOf(names)[|names| := NameBase + |Packed(names)|]
  {
    var longer := names + [name];
    forall k | 0 <= k < |names| ensures longer[..k] == names[..k] {
    }
    assert longer[..|names|] == names;
  }

  lemma AllFitAppend(names: seq<seq<byte>>, name: seq<byte>)
    requires AllFit(names) && NameFits(name)
    ensures AllFit(names + [name])
  {
    assert (names + [name])[..|names|] == names;
  }

  /** Writing `s` at offset `at` of `b` leaves its length, and the bytes from `lo` up to `at`
      are followed by `s`. */
  lemma Splice(b: seq<byte>, lo: nat, at: nat, s: seq<byte>)
    requires lo <= at && at + |s| <= |b|
    ensures |b[..at] + s + b[at + |s|..]| == |b|
    ensures (b[..at] + s + b[at + |s|..])[lo..at + |s|] == b[lo..at] + s
  {
  }

  /** Name k sits in the names region at the offset the names before it take, followed by a NUL. */
  lemma PackedAt(names: seq<seq<byte>>, k: nat)
    requires k < |names|
    ensures var off := |Packed(names[..k])|;
      && off + |names[k]| < |Packed(names)|
      && Packed(names)[off..off + |names[k]|] == names[k]
      && Packed(names)[off + |names[k]|] == 0
  {
    var front := names[..k + 1];
    assert names == front + names[k + 1..];
    PackedAppend(front, names[k + 1..]);
    assert front[..k] == names[..k];
  }

  /** The region is never overfull, and holds less than one unit of slack beyond the first. */
  lemma {:induction false} UnitsTight(used: nat)
    ensures used <= MaxPathLen * Units(used)
    ensures Units(used) == 1 || MaxPathLen * (Units(used) - 1) < used
  {
    if used > MaxPathLen {
      UnitsTight(used - MaxPathLen);
    }
  }

  /** Storing a name of `size` bytes adds a unit exactly when it does not fit in the current ones. */
  lemma {:induction false} UnitsStep(used: nat, size: nat)
    requires 1 <= size <= MaxPathLen
    ensures Units(used + size) ==
      if used + size > MaxPathLen * Units(used) then Units(used) + 1 else Units(used)
  {
    if used > MaxPathLen {
      UnitsStep(used - MaxPathLen, size);
    }
  }

  lemma {:induction false} UnitsMonotonic(a: nat, b: nat)
    requires a <= b
    ensures Units(a) <= Units(b)
  {
    if a > MaxPathLen {
      UnitsMonotonic(a - MaxPathLen, b - MaxPathLen);
    }
  }

  /** The index is NULL-terminated: the slots of the stored names are non-NULL, every slot
      after them is NULL, and the last slot always is. */
  lemma IndexTerminated(names: seq<seq<byte>>)
    requires |names| <= MaxSnapshots
    ensures forall k :: 0 <= k < IndexSlots ==> (IndexOf(names)[k] != 0 <==> k < |names|)
    ensures IndexOf(names)[MaxSnapshots] == 0
  {
  }

  /** An enumeration that yields no name without an error gives a list, with slot 0 NULL. */
  lemma NoNamesGivesEmptyList(replies: seq<Reply>, memLimit: nat)
    requires Visited(replies) == [] && !EndsInError(replies) && InitialSize <= memLimit
    ensures Expected(replies, memLimit) == Some([])
    ensures IndexOf([])[0] == 0
  {
    assert Packed([]) == [];
  }

  /** If storing some prefix of the names already needs more memory than there is, the
      lister fails. */
  lemma PrefixTooBig(replies: seq<Reply>, memLimit: nat, p: seq<seq<byte>>)
    requires |p| <= MaxSnapshots && |p| <= |Visited(replies)| && p == Visited(replies)[..|p|]
    requires Capacity(|Packed(p)|) > memLimit
    ensures Expected(replies, memLimit) == None
  {
    var names := Visited(replies);
    var kept := if |names| > MaxSnapshots then names[..MaxSnapshots] else names;
    assert kept[..|p|] == p;
    assert kept == p + kept[|p|..];
    PackedAppend(p, kept[|p|..]);
    UnitsMonotonic(|Packed(p)|, |Packed(kept)|);
  }

  /** When every name fits in memory, the lister returns them all unless the enumeration
      ended in an error. */
  lemma ExpectedWhenAllStored(replies: seq<Reply>, memLimit: nat)
    requires |Visited(replies)| <= MaxSnapshots && Capacity(|Packed(Visited(replies))|) <= memLimit
    ensures Expected(replies, memLimit) ==
      if EndsInError(replies) then None else Some(Visited(replies))
  {
  }

  /** When the 257th name is met with the first 256 stored, the lister returns those 256,
      whatever the enumerator would have said next. */
  lemma ExpectedWhenFull(replies: seq<Reply>, memLimit: nat)
    requires |Visited(replies)| > MaxSnapshots
    requires Capacity(|Packed(Visited(replies)[..MaxSnapshots])|) <= memLimit
    ensures Expected(replies, memLimit) == Some(Visited(replies)[..MaxSnapshots])
  {
  }

  /** The list never holds more than 256 names; they are the first names enumerated, in order,
      and all of them when there are at most 256. */
  lemma ExpectedIsCappedPrefix(replies: seq<Reply>, memLimit: nat)
    requires Expected(replies, memLimit).Some?
    ensures var names := Expected(replies, memLimit).value;
      && |names| <= MaxSnapshots
      && names == Visited(replies)[..|names|]
      && (|Visited(replies)| <= MaxSnapshots ==> names == Visited(replies))
      && (|Visited(replies)| > MaxSnapshots ==> |names| == MaxSnapshots)
  {
  }

  // ---------------------------------------------------------------------------------------
  // Storing names one at a time

  /** How a walk over names ended: all of them were taken, a name arrived with 256 already
      stored, or the allocation a name needed could not be had. */
  datatype WalkEnd = Walked | Full | OutOfMemory

  /** How a walk ended and the names stored when it did. */
  datatype Progress = Progress(end: WalkEnd, names: seq<seq<byte>>)

  /** Storing `incoming` one name at a time after `stored`: a name arriving with 256 stored ends
      the walk as Full, a name whose store needs more than `memLimit` bytes ends it as
      OutOfMemory, and any other name is stored. */
  function Feed(stored: seq<seq<byte>>, incoming: seq<seq<byte>>, memLimit: nat): Progress
    decreases |incoming|
  {
    if incoming == [] then Progress(Walked, stored)
    else if |stored| >= MaxSnapshots then Progress(Full, stored)
    else if Capacity(|Packed(stored + [incoming[0]])|) > memLimit then Progress(OutOfMemory, stored)
    else Feed(stored + [incoming[0]], incoming[1..], memLimit)
  }

  /** Feeding two runs of names is feeding the first, then the second if the first was taken. */
  lemma {:induction false} FeedAppend(stored: seq<seq<byte>>, a: seq<seq<byte>>, b: seq<seq<byte>>, memLimit: nat)
    ensures Feed(stored, a + b, memLimit) ==
      var p := Feed(stored, a, memLimit);
      if p.end == Walked then Feed(p.names, b, memLimit) else p
    decreases |a|
  {
    if a == [] {
      assert a + b == b;
    } else {
      assert (a + b)[0] == a[0] && (a + b)[1..] == a[1..] + b;
      if |stored| < MaxSnapshots && Capacity(|Packed(stored + [a[0]])|) <= memLimit {
        FeedAppend(stored + [a[0]], a[1..], b, memLimit);
      }
    }
  }

  /** What a walk stores: a prefix of all the names, with those it started from, never more
      than 256 of them and never more than the memory allows. */
  lemma {:induction false} FeedStores(stored: seq<seq<byte>>, incoming: seq<seq<byte>>, memLimit: nat)
    requires |stored| <= MaxSnapshots && Capacity(|Packed(stored)|) <= memLimit
    ensures var p := Feed(stored, incoming, memLimit);
      && |stored| <= |p.names| <= |stored| + |incoming| && |p.names| <= MaxSnapshots
      && p.names == (stored + incoming)[..|p.names|]
      && Capacity(|Packed(p.names)|) <= memLimit
    decreases |incoming|
  {
    if incoming != [] && |stored| < MaxSnapshots && Capacity(|Packed(stored + [incoming[0]])|) <= memLimit {
      var next := stored + [incoming[0]];
      assert next + incoming[1..] == stored + incoming;
      FeedStores(next, incoming[1..], memLimit);
    } else {
      assert (stored + incoming)[..|stored|] == stored;
    }
  }

  /** Why a walk ends: Walked when every name was stored, Full when a name arrived with 256
      stored, OutOfMemory when the next name's store needs more than the memory allows. */
  lemma {:induction false} FeedEnds(stored: seq<seq<byte>>, incoming: seq<seq<byte>>, memLimit: nat)
    requires |stored| <= MaxSnapshots
    ensures var p := Feed(stored, incoming, memLimit);
      var all := stored + incoming;
      && (p.end == Walked ==> p.names == all)
      && (p.end != Walked ==> |p.names| < |all|)
      && (p.end == Full ==> |p.names| == MaxSnapshots)
      && (p.end == OutOfMemory ==>
            |p.names| < MaxSnapshots && Capacity(|Packed(all[..|p.names| + 1])|) > memLimit)
    decreases |incoming|
  {
    var all := stored + incoming;
    if incoming == [] {
      assert all == stored;
    } else if |stored| >= MaxSnapshots {
    } else if Capacity(|Packed(stored + [incoming[0]])|) > memLimit {
      assert all[..|stored| + 1] == stored + [incoming[0]];
    } else {
      var next := stored + [incoming[0]];
      assert next + incoming[1..] == all;
      FeedEnds(next, incoming[1..], memLimit);
    }
  }

  /** Feeding the enumerated names from an empty list gives the lister's result: NULL when a
      store ran out of memory or when the enumeration ended in an error with every name stored,
      and the stored names otherwise. */
  lemma FeedIsExpected(replies: seq<Reply>, memLimit: nat)
    requires InitialSize <= memLimit
    ensures var p := Feed([], Visited(replies), memLimit);
      Expected(replies, memLimit) ==
        if p.end == OutOfMemory || (p.end == Walked && EndsInError(replies)) then None
        else Some(p.names)
  {
    var names := Visited(replies);
    assert [] + names == names;
    assert Packed([]) == [];
    FeedStores([], names, memLimit);
    FeedEnds([], names, memLimit);
    var p := Feed([], names, memLimit);
    if p.end == OutOfMemory {
      var q := names[..|p.names| + 1];
      assert |q| <= MaxSnapshots && q == names[..|q|];
      PrefixTooBig(replies, memLimit, q);
    } else if p.end == Full {
      assert p.names == names[..MaxSnapshots];
      ExpectedWhenFull(replies, memLimit);
    } else {
      assert p.names == names;
      ExpectedWhenAllStored(replies, memLimit);
    }
  }

  // ---------------------------------------------------------------------------------------
  // The allocation being built

  /** The allocation of copy_snapshot_list: `slots` is its index region (slot k holds the offset
      of name k from the start of the allocation, 0 for NULL), `bytes` the whole allocation of
      `size` bytes, of which bytes NameBase..nameOffset are the names stored so far. */
  class SnapshotBuffer {
    var slots: seq<nat>
    var bytes: seq<byte>
    var count: nat
    var nameOffset: nat
    var size: nat
    ghost var Names: seq<seq<byte>>

    /** The index and the names region agree with Names, within an allocation of `size` bytes. */
    ghost predicate LaidOut()
      reads this
    {
      && |bytes| == size
      && count == |Names| <= MaxSnapshots
      && AllFit(Names)
      && nameOffset == NameBase + |Packed(Names)|
      && nameOffset <= size
      && slots == IndexOf(Names)
      && bytes[NameBase..nameOffset] == Packed(Names)
    }

    /** ... and the allocation has grown only as far as the names needed. */
    ghost predicate Valid()
      reads this
    {
      LaidOut() && size == Capacity(|Packed(Names)|)
    }

    /** calloc(snapshots_size, 1): every slot NULL, no names. */
    constructor ()
      ensures Valid() && Names == [] && size == InitialSize
    {
      slots := seq(IndexSlots, _ => 0);
      bytes := seq(InitialSize, _ => 0);
      count, nameOffset, size := 0, NameBase, InitialSize;
      Names := [];
    }

    /** Slot k of the index leads to name k, a C string inside the allocation. */
    lemma SlotHoldsName(k: nat)
      requires Valid() && k < count
      ensures NameBase <= slots[k] < nameOffset
      ensures HoldsCString(bytes, slots[k], Names[k])
    {
      PackedAt(Names, k);
      AllFitAt(Names, k);
      var off := |Packed(Names[..k])|;
      var n := Names[k];
      var region := bytes[NameBase..nameOffset];
      var at := slots[k];
      assert at == NameBase + off;
      forall j | 0 <= j < |n| ensures bytes[at + j] == n[j] {
        assert bytes[at + j] == region[off + j];
      }
      assert bytes[at..at + |n|] == n;
      assert bytes[at + |n|] == region[off + |n|];
    }

    /** The loop of snapshot_check over the index: from slot 0 up to the first NULL slot,
        compare `name` with the name each slot leads to. */
    method Contains(name: seq<byte>) returns (found: bool)
      requires Valid() && IsCString(name)
      ensures found <==> name in Names
    {
      var k := 0;
      while slots[k] != 0
        invariant k <= count
        invariant name !in Names[..k]
        decreases count - k
      {
        SlotHoldsName(k);
        var eq := CStringEquals(bytes, slots[k], Names[k], name);
        if eq {
          return true;
        }
        assert Names[..k + 1] == Names[..k] + [Names[k]];
        k := k + 1;
      }
      assert Names[..k] == Names;
      return false;
    }

    /** The head of the index as copy_first_snapshot reads it: NULL when slot 0 is NULL, and
        otherwise a strdup of the name it leads to. */
    method First() returns (first: Option<seq<byte>>)
      requires Valid()
      ensures first.Some? <==> Names != []
      ensures first.Some? ==> first.value == Names[0]
    {
      first := None;
      if slots[0] != 0 {
        SlotHoldsName(0);
        var name := CStringCopy(bytes, slots[0], Names[0]);
        first := Some(name);
      }
    }

    /** A successful reallocf to MAXPATHLEN more bytes: the old contents followed by bytes whose
        values nothing reads. */
    method Grow()
      requires LaidOut()
      modifies this
      ensures LaidOut() && size == old(size) + MaxPathLen
      ensures slots == old(slots) && Names == old(Names)
    {
      bytes, size := bytes + seq(MaxPathLen, _ => 0), size + MaxPathLen;
    }

    /** Point the next slot at nameOffset and, as strncpy(snapshots + nameOffset, name,
        strlen(name) + 1) does, copy the name and its NUL there, in room the allocation already
        has. */
    method Append(name: seq<byte>)
      requires LaidOut() && count < MaxSnapshots && NameFits(name) && nameOffset + |name| + 1 <= size
      modifies this
      ensures LaidOut() && Names == old(Names) + [name] && size == old(size)
    {
      PackedAppendOne(Names, name);
      IndexOfAppend(Names, name);
      AllFitAppend(Names, name);
      Splice(bytes, NameBase, nameOffset, name + [0]);
      var next := nameOffset + |name| + 1;
      bytes := bytes[..nameOffset] + (name + [0]) + bytes[next..];
      slots := slots[count := nameOffset];
      nameOffset, count := next, count + 1;
      Names := Names + [name];
    }

    /** The store of one name (the body of the name branch after the cap check): grow the
        allocation by MAXPATHLEN when the name does not fit, where a failed reallocation ends
        the call, then append the name. */
    method Store(name: seq<byte>, memLimit: nat) returns (ok: bool)
      requires Valid() && count < MaxSnapshots && NameFits(name) && size <= memLimit
      modifies this
      ensures ok <==> Capacity(|Packed(old(Names) + [name])|) <= memLimit
      ensures ok ==> Valid() && Names == old(Names) + [name] && size <= memLimit
      ensures ok ==> size == old(size) + if old(nameOffset) + |name| + 1 > old(size) then MaxPathLen else 0
      ensures !ok ==> Names == old(Names)
    {
      var need := |name| + 1;
      PackedAppendOne(Names, name);
      UnitsStep(|Packed(Names)|, need);
      if nameOffset + need > size {
        if size + MaxPathLen > memLimit {
          // the reallocation fails
          return false;
        }
        Grow();
      }
      Append(name);
      ok := true;
    }
  }

  // ---------------------------------------------------------------------------------------
  // The lister

  /** One record of the inner loop of copy_snapshot_list: when its name bit is set, stop if
      256 names are already stored, and otherwise store the name. */
  method VisitRecord(list: SnapshotBuffer, entry: Record, memLimit: nat) returns (end: WalkEnd)
    requires list.Valid() && list.size <= memLimit && WellFormedRecord(entry)
    modifies list
    ensures end != OutOfMemory ==> list.Valid() && list.size <= memLimit
    ensures Progress(end, list.Names) == Feed(old(list.Names), NameOf(entry), memLimit)
  {
    if entry.hasName {
      assert [entry.name][1..] == [];
      if list.count > MaxSnapshots - 1 {
        // 256 names are already stored
        return Full;
      }
      var ok := list.Store(entry.name, memLimit);
      if !ok {
        return OutOfMemory;
      }
    }
    return Walked;
  }

  /** The inner loop of copy_snapshot_list over the `retcount` records of one page: each record
      is read at the offset the previous ones' lengths lead to. */
  method WalkPage(list: SnapshotBuffer, page: seq<Record>, memLimit: nat) returns (end: WalkEnd)
    requires list.Valid() && list.size <= memLimit
    requires forall j :: 0 <= j < |page| ==> WellFormedRecord(page[j])
    modifies list
    ensures end != OutOfMemory ==> list.Valid() && list.size <= memLimit
    ensures Progress(end, list.Names) == Feed(old(list.Names), NamedOf(page), memLimit)
  {
    ghost var goal := Feed(list.Names, NamedOf(page), memLimit);
    var at := 0;
    var i := 0;
    while i < |page|
      invariant i <= |page| && at == StartOf(page, i)
      invariant list.Valid() && list.size <= memLimit
      invariant goal == Feed(list.Names, NamedOf(page[i..]), memLimit)
    {
      RecordAtStart(page, i);
      var entry := RecordAt(page, at).value;
      NamedOfStep(page, i);
      FeedAppend(list.Names, NameOf(entry), NamedOf(page[i + 1..]), memLimit);
      end := VisitRecord(list, entry, memLimit);
      if end != Walked {
        return;
      }
      StartOfNext(page, i);
      at := at + entry.length;
      i := i + 1;
    }
    assert NamedOf(page[i..]) == [];
    end := Walked;
  }

  /** The outer loop of copy_snapshot_list: one enumerator call per iteration, walking each
      non-empty page, until a reply that is not one (`failed` tells an error from exhaustion)
      or until the walk of a page stops early. */
  method ReadPages(list: SnapshotBuffer, replies: seq<Reply>, memLimit: nat) returns (end: WalkEnd, failed: bool)
    requires list.Valid() && list.size <= memLimit && WellFormedReplies(replies)
    modifies list
    ensures end != OutOfMemory ==> list.Valid() && list.size <= memLimit
    ensures Progress(end, list.Names) == Feed(old(list.Names), Visited(replies), memLimit)
    ensures end == Walked ==> failed == EndsInError(replies)
  {
    ghost var goal := Feed(list.Names, Visited(replies), memLimit);
    var call := 0;
    var reply := ReplyAt(replies, call);
    while reply.Page? && reply.records != []
      invariant call <= |replies| && reply == ReplyAt(replies, call)
      invariant list.Valid() && list.size <= memLimit
      invariant goal == Feed(list.Names, Visited(replies[call..]), memLimit)
      invariant EndsInError(replies) == EndsInError(replies[call..])
      decreases |replies| - call
    {
      var page := reply.records;
      VisitedStep(replies, call);
      FeedAppend(list.Names, NamedOf(page), Visited(replies[call + 1..]), memLimit);
      end := WalkPage(list, page, memLimit);
      if end != Walked {
        return end, false;
      }
      call := call + 1;
      reply := ReplyAt(replies, call);
    }
    if call < |replies| {
      assert replies[call..][0] == replies[call];
    } else {
      assert replies[call..] == [];
    }
    end, failed := Walked, reply.Error?;
  }

  /** copy_snapshot_list(dirfd), with the enumerator's replies as `replies` and an allocation
      of more than `memLimit` bytes failing: returns null exactly when the C code returns NULL,
      and otherwise an allocation whose index lists the names `Expected` says. */
  method CopySnapshotList(replies: seq<Reply>, memLimit: nat) returns (list: SnapshotBuffer?)
    requires WellFormedReplies(replies)
    ensures list == null <==> Expected(replies, memLimit).None?
    ensures list != null ==> fresh(list) && list.Valid() && Expected(replies, memLimit) == Some(list.Names)
  {
    if InitialSize > memLimit {
      // the first allocation fails
      return null;
    }
    list := new SnapshotBuffer();
    var end, failed := ReadPages(list, replies, memLimit);
    FeedIsExpected(replies, memLimit);
    if end == OutOfMemory {
      // the reallocation fails
      return null;
    }
    if end == Walked && failed {
      // the enumerator returned an error
      return null;
    }
  }

  // ---------------------------------------------------------------------------------------
  // The index as written: absolute addresses

  /** The index as the C code keeps it: the allocation lives at address `base`, and each slot
      holds the absolute address of its name. */
  datatype PointerIndex = PointerIndex(base: nat, size: nat, nameOffset: nat, slots: seq<nat>)

  /** The store of a name as written, where `nameSize` is the name's length plus its NUL (the
      `size` of the code). When it does not fit, snapshots_size grows by MAXPATHLEN and reallocf
      may move the allocation (to `movedTo`); the new slot gets the address of nameOffset in the
      current allocation, and the slots already written are left as they were. */
  function StoreAsWritten(ix: PointerIndex, nameSize: nat, movedTo: nat): (r: PointerIndex)
    ensures |r.slots| == |ix.slots| + 1 && r.slots[..|ix.slots|] == ix.slots
    ensures r.slots[|ix.slots|] == r.base + ix.nameOffset
  {
    var grow := ix.nameOffset + nameSize > ix.size;
    var base := if grow then movedTo else ix.base;
    var size := if grow then ix.size + MaxPathLen else ix.size;
    PointerIndex(base, size, ix.nameOffset + nameSize, ix.slots + [base + ix.nameOffset])
  }

  /** Slot k points into the names stored in the current allocation. */
  predicate PointsInside(ix: PointerIndex, k: nat)
    requires k < |ix.slots|
  {
    ix.base + NameBase <= ix.slots[k] < ix.base + ix.nameOffset
  }

  /** For every store as written that grows the allocation and moves it to a block apart from
      the old one, every slot that pointed into the old block's names now points outside the
      current block altogether, and so at none of its names. */
  lemma MovedStoreDangles(ix: PointerIndex, nameSize: nat, movedTo: nat, k: nat)
    requires ix.nameOffset <= ix.size && ix.nameOffset + nameSize > ix.size && nameSize <= MaxPathLen
    requires movedTo >= ix.base + ix.size || movedTo + ix.size + MaxPathLen <= ix.base
    requires k < |ix.slots| && PointsInside(ix, k)
    ensures var r := StoreAsWritten(ix, nameSize, movedTo); !(r.base <= r.slots[k] < r.base + r.size)
    ensures !PointsInside(StoreAsWritten(ix, nameSize, movedTo), k)
  {
  }

  /** When the allocation stays where it is (no growth, or a reallocation in place), the slots
      already written keep pointing into the names. */
  lemma UnmovedStoreKeepsSlots(ix: PointerIndex, nameSize: nat, movedTo: nat, k: nat)
    requires ix.nameOffset + nameSize <= ix.size || movedTo == ix.base
    requires k < |ix.slots| && PointsInside(ix, k)
    ensures PointsInside(StoreAsWritten(ix, nameSize, movedTo), k)
  {
  }

  /** Two names of 999 bytes (1000 with their NULs): the second does not fit in the first MAXPATHLEN, the allocation
      grows and moves, and slot 0 keeps pointing into the block that was given up. */
  lemma MovedAllocationLeavesSlotDangling()
    ensures var ix0 := PointerIndex(0x1000, InitialSize, NameBase, []);
      var ix1 := StoreAsWritten(ix0, 1000, 0x1000);
      var ix2 := StoreAsWritten(ix1, 1000, 0x10_0000);
      && PointsInside(ix1, 0)
      && ix2.base != ix1.base
      && PointsInside(ix2, 1)
      && !PointsInside(ix2, 0)
  {
  }
}
