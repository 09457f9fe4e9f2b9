/** The two queries over the lister's result: whether a snapshot of a given name exists, and
    a copy of the first snapshot's name. */
module SnapshotQuery {
  import opened Bytes
  import opened SnapshotList

  /** snapshot_check(dirfd, name): false when the lister returns NULL; otherwise whether `name`
      is byte for byte one of the listed names. */
  method SnapshotCheck(replies: seq<Reply>, memLimit: nat, name: seq<byte>) returns (found: bool)
    requires WellFormedReplies(replies) && IsCString(name)
    ensures found <==> Expected(replies, memLimit).Some? && name in Expected(replies, memLimit).value
  {
    var list := CopySnapshotList(replies, memLimit);
    if list == null {
      return false;
    }
    found := list.Contains(name);
  }

  /** copy_first_snapshot(dirfd): NULL when the lister returns NULL or lists no name; otherwise
      a copy of the first name. */
  method CopyFirstSnapshot(replies: seq<Reply>, memLimit: nat) returns (first: Option<seq<byte>>)
    requires WellFormedReplies(replies)
    ensures first.Some? <==> Expected(replies, memLimit).Some? && Expected(replies, memLimit).value != []
    ensures first.Some? ==> first.value == Expected(replies, memLimit).value[0]
  {
    var list := CopySnapshotList(replies, memLimit);
    if list == null {
      return None;
    }
    first := list.First();
  }
}
