/**
  Deleting a user with everything stored for it: the S3 part of
  DeleteUserComplete, which removes the row first and then sweeps the bucket with
  whatever client happens to be cached.
 */
module UserDeletion {
  import opened Common
  import opened S3Clients
  import opened S3Objects

  /** The sweep takes place: the row says S3 is on and a client is cached. */
  predicate Sweeps(s: State, id: string) {
    id in s.rows && s.rows[id].enabled && HasClient(s, id)
  }

  /**
    `configOk` is whether the query for s3_enabled succeeds (a failure counts as
    disabled) and `sqlOk` whether the DELETE does. `ok` is what the caller is
    told; `swept`, whether the bucket was swept to the end, is only logged.
   */
  method DeleteUserComplete(m: Manager, b: Bucket, id: string, configOk: bool, sqlOk: bool)
    returns (ok: bool, swept: bool)
    requires b.Valid() && b.batches == []
    modifies m`rows, b
    ensures ok <==> id in old(m.rows) && sqlOk
    ensures m.rows == if ok then old(m.rows) - {id} else old(m.rows)
    ensures Agrees(old(m.View())) ==> Agrees(m.View())
    ensures b.reliable && ok && configOk && Sweeps(old(m.View()), id) ==> swept
    ensures swept ==> ok && configOk && Sweeps(old(m.View()), id) && Deleted(old(b.live), b.live, b.refused, id)
    ensures !(ok && configOk && Sweeps(old(m.View()), id)) ==> b.live == old(b.live)
    ensures b.live <= old(b.live) && forall k <- old(b.live) :: k !in b.live ==> "users/" + id + "/" <= k
  {
    ok, swept := false, false;
    if id !in m.rows {
      return;
    }
    var s3Enabled := configOk && m.rows[id].enabled;
    if !sqlOk {
      return;
    }
    m.rows := m.rows - {id};
    ok := true;
    if s3Enabled {
      var _, _, client := m.GetClient(id);
      swept := DeleteAllUserObjects(client, b, id);
    }
  }

  /**
    Over whole runs: the media of a user that existed when the process started is
    swept on deletion exactly when S3 is on and something has used S3 for that
    user since then. Right after a restart nothing is.
   */
  lemma SweepsIffUsed(s: State, ops: seq<Op>, id: string)
    requires Init(s) && id in s.rows && id in Run(s, ops).rows
    ensures Sweeps(Run(s, ops), id) <==>
            Run(s, ops).rows[id].enabled && exists op <- ops :: op.id == id && UsesS3(op)
  {
    if Run(s, ops).rows[id].enabled {
      ClientIffUsed(s, ops, id);
    }
  }

  /** Had the client been ensured before the row was deleted, being enabled would decide alone. */
  lemma EnsuringFirstSweeps(s: State, ops: seq<Op>, id: string)
    requires Init(s) && id in Run(s, ops).rows
    ensures Sweeps(Ensured(Run(s, ops), id), id) <==> Run(s, ops).rows[id].enabled
  {
    EnsureIsExact(s, ops, id);
  }
}
