/** What sealing a batch means, as one functional pass: keep the first occurrence of every
    external id, then fold the event hash over the kept rows. */
module Sealing {
  import opened Wrappers
  import opened HashChain
  import opened Content
  import opened Tables

  // ----- first-occurrence deduplication (dedupePending) -----

  predicate HasExternal(p: PendingRow) {
    p.externalId.Some? && p.externalId.value != ""
  }

  /** The external ids that rows carry. */
  function Externals(rows: seq<PendingRow>): set<string> {
    set i | 0 <= i < |rows| && HasExternal(rows[i]) :: rows[i].externalId.value
  }

  predicate IsDuplicate(p: PendingRow, seen: set<string>) {
    HasExternal(p) && p.externalId.value in seen
  }

  /** Rows whose external id is neither in `seen` nor carried by an earlier row. */
  function FirstOccurrences(rows: seq<PendingRow>, seen: set<string>): (kept: seq<PendingRow>)
    ensures forall i :: 0 <= i < |kept| ==> kept[i] in rows
    ensures |kept| <= |rows|
  {
    if rows == [] then []
    else
      var init, last := rows[..|rows| - 1], rows[|rows| - 1];
      FirstOccurrences(init, seen) + (if IsDuplicate(last, seen + Externals(init)) then [] else [last])
  }

  lemma ExternalsAppend(a: seq<PendingRow>, b: seq<PendingRow>)
    ensures Externals(a + b) == Externals(a) + Externals(b)
  {
    forall x | x in Externals(a) + Externals(b) ensures x in Externals(a + b) {
      if x in Externals(a) {
        var i :| 0 <= i < |a| && HasExternal(a[i]) && a[i].externalId.value == x;
        assert (a + b)[i] == a[i];
      } else {
        var i :| 0 <= i < |b| && HasExternal(b[i]) && b[i].externalId.value == x;
        assert (a + b)[|a| + i] == b[i];
      }
    }
  }

  /** Deduplicating a queue in two parts: the second part also counts what the first carried. */
  lemma {:induction false} FirstOccurrencesAppend(a: seq<PendingRow>, b: seq<PendingRow>, seen: set<string>)
    ensures FirstOccurrences(a + b, seen) == FirstOccurrences(a, seen) + FirstOccurrences(b, seen + Externals(a))
  {
    if b == [] {
      assert a + b == a;
    } else {
      var init := b[..|b| - 1];
      assert (a + b)[..|a + b| - 1] == a + init;
      FirstOccurrencesAppend(a, init, seen);
      ExternalsAppend(a, init);
      assert seen + Externals(a + init) == seen + Externals(a) + Externals(init);
    }
  }

  /** Only ids that the rows themselves carry matter. */
  lemma {:induction false} FirstOccurrencesRelevant(rows: seq<PendingRow>, seen: set<string>, seen': set<string>)
    requires forall x :: x in Externals(rows) ==> (x in seen <==> x in seen')
    ensures FirstOccurrences(rows, seen) == FirstOccurrences(rows, seen')
  {
    if rows == [] {
    } else {
      var init, last := rows[..|rows| - 1], rows[|rows| - 1];
      assert rows == init + [last];
      ExternalsAppend(init, [last]);
      FirstOccurrencesRelevant(init, seen, seen');
      assert HasExternal(last) ==> last.externalId.value in Externals([last]) by {
        assert [last][0] == last;
      }
    }
  }

  /** No external id is kept twice, and none that was seen before is kept. */
  predicate DistinctExternals(rows: seq<PendingRow>) {
    forall i, j :: 0 <= i < j < |rows| && HasExternal(rows[i]) ==> rows[i].externalId != rows[j].externalId
  }

  lemma ExternalsSingle(p: PendingRow)
    ensures Externals([p]) == if HasExternal(p) then {p.externalId.value} else {}
  {
    assert [p][0] == p;
  }

  /** Some row has this value in its external id column. */
  predicate Carries(rows: seq<PendingRow>, x: string) {
    exists i :: 0 <= i < |rows| && rows[i].externalId == Some(x)
  }

  lemma CarriedExternals(rows: seq<PendingRow>)
    ensures forall x :: x != "" ==> (Carries(rows, x) <==> x in Externals(rows))
  {
  }

  /** What deduplication keeps carries exactly the external ids that were new. */
  lemma {:induction false} KeptExternals(rows: seq<PendingRow>, seen: set<string>)
    ensures Externals(FirstOccurrences(rows, seen)) == Externals(rows) - seen
    ensures forall x :: x != "" ==>
              (Carries(FirstOccurrences(rows, seen), x) <==> Carries(rows, x) && x !in seen)
  {
    CarriedExternals(rows);
    CarriedExternals(FirstOccurrences(rows, seen));
    if rows == [] {
    } else {
      var init, last := rows[..|rows| - 1], rows[|rows| - 1];
      var kept := FirstOccurrences(init, seen);
      KeptExternals(init, seen);
      assert rows == init + [last];
      ExternalsAppend(init, [last]);
      ExternalsSingle(last);
      if IsDuplicate(last, seen + Externals(init)) {
        assert FirstOccurrences(rows, seen) == kept + [] == kept;
      } else {
        assert FirstOccurrences(rows, seen) == kept + [last];
        ExternalsAppend(kept, [last]);
        assert Externals([last]) !! seen;
      }
    }
  }

  lemma ExternalsMember(rows: seq<PendingRow>, i: nat)
    requires i < |rows| && HasExternal(rows[i])
    ensures rows[i].externalId.value in Externals(rows)
  {
  }

  lemma {:induction false} KeptAreDistinct(rows: seq<PendingRow>, seen: set<string>)
    ensures DistinctExternals(FirstOccurrences(rows, seen))
    ensures var kept := FirstOccurrences(rows, seen);
            forall i, j :: 0 <= i < j < |kept| && kept[i].externalId !in {None, Some("")} ==>
              kept[i].externalId != kept[j].externalId
  {
    if rows == [] {
    } else {
      var init, last := rows[..|rows| - 1], rows[|rows| - 1];
      var kept := FirstOccurrences(init, seen);
      KeptAreDistinct(init, seen);
      KeptExternals(init, seen);
      forall i | 0 <= i < |kept| && HasExternal(kept[i]) && !IsDuplicate(last, seen + Externals(init))
        ensures kept[i].externalId != last.externalId
      {
        ExternalsMember(kept, i);
      }
    }
  }

  /** The row has no external id, or one that is neither in the journal nor in an earlier row. */
  predicate IsNew(rows: seq<PendingRow>, i: nat, journal: set<string>)
    requires i < |rows|
  {
    var x := rows[i].externalId;
    || x == None || x == Some("")
    || (x.value !in journal && forall j :: 0 <= j < i ==> rows[j].externalId != x)
  }

  // ----- chain linkage (the loop of SealShard, buildEventRow) -----

  /** The external id inside the stored envelope. */
  function EnvelopeExternalId(data: Envelope): string {
    DecodeEvent(data.input).externalEventId
  }

  /** raw_payload: the envelope's event, decoded and encoded again. */
  function RawPayload(data: Envelope): EventJson {
    EncodeEvent(DecodeEvent(data.input))
  }

  /** buildEventRow: the chain's project, the envelope's content, and the link. */
  function BuildEventRow(p: PendingRow, chainId: string, project: string, position: int,
                         prevHash: string, eventHash: string): EventRow {
    EventRow(p.id, p.org, project, p.env, NullIfEmpty(EnvelopeExternalId(p.data)), TimestampColumn(p.data.receivedAt),
             RawPayload(p.data), chainId, position, p.payloadHash, NullIfEmpty(prevHash), eventHash)
  }

  /** The running hash after some rows, starting from `prev`. */
  function TipHash(prev: string, rows: seq<EventRow>): string {
    if rows == [] then prev else rows[|rows| - 1].eventHash
  }

  /** Rows linked one after the other, the first at position `start` after hash `prev`. */
  function LinkRows(H: Digest, chainId: string, project: string, prev: string, start: int,
                    rows: seq<PendingRow>): (events: seq<EventRow>)
    ensures |events| == |rows|
  {
    if rows == [] then []
    else
      var n := |rows| - 1;
      var done := LinkRows(H, chainId, project, prev, start, rows[..n]);
      var tip := TipHash(prev, done);
      done + [BuildEventRow(rows[n], chainId, project, start + n, tip, EventHash(H, tip, rows[n].payloadHash, start + n))]
  }

  lemma {:induction false} LinkRowsAppend(H: Digest, chainId: string, project: string, prev: string, start: int,
                                          a: seq<PendingRow>, b: seq<PendingRow>)
    ensures var done := LinkRows(H, chainId, project, prev, start, a);
            LinkRows(H, chainId, project, prev, start, a + b)
            == done + LinkRows(H, chainId, project, TipHash(prev, done), start + |a|, b)
  {
    hide EventHash, BuildEventRow;
    if b == [] {
      assert a + b == a;
    } else {
      var n := |b| - 1;
      var init, last := b[..n], b[n];
      assert (a + b)[..|a| + n] == a + init && (a + b)[|a| + n] == last;
      LinkRowsAppend(H, chainId, project, prev, start, a, init);
      var done := LinkRows(H, chainId, project, prev, start, a);
      var mid := TipHash(prev, done);
      var more := LinkRows(H, chainId, project, mid, start + |a|, init);
      assert TipHash(prev, done + more) == TipHash(mid, more);
    }
  }

  lemma {:induction false} LinkRowsAt(H: Digest, chainId: string, project: string, prev: string, start: int,
                                      rows: seq<PendingRow>, i: nat)
    requires i < |rows|
    ensures var events := LinkRows(H, chainId, project, prev, start, rows);
            var tip := if i == 0 then prev else events[i - 1].eventHash;
            events[i] == BuildEventRow(rows[i], chainId, project, start + i, tip,
                                       EventHash(H, tip, rows[i].payloadHash, start + i))
  {
    hide EventHash, BuildEventRow;
    var n := |rows| - 1;
    var init := rows[..n];
    var events := LinkRows(H, chainId, project, prev, start, rows);
    var done := LinkRows(H, chainId, project, prev, start, init);
    assert events[..n] == done;
    if i < n {
      LinkRowsAt(H, chainId, project, prev, start, init, i);
      assert events[i] == done[i] && init[i] == rows[i];
      assert i > 0 ==> events[i - 1] == done[i - 1];
    } else {
      assert n > 0 ==> events[n - 1] == done[n - 1] && TipHash(prev, done) == done[n - 1].eventHash;
    }
  }

  // ----- the one-pass log -----

  /** A chain's whole journal, given everything that was ever drained from its queue. */
  function SealedLog(H: Digest, chainId: string, project: string, drained: seq<PendingRow>): seq<EventRow> {
    LinkRows(H, chainId, project, "", 1, FirstOccurrences(drained, {}))
  }

  /** The rows that a batch adds to a chain of length `length` whose tip is `prev`, when the
      external ids in `seen` are already in the journal. */
  function BatchRows(H: Digest, chainId: string, project: string, prev: string, length: int,
                     batch: seq<PendingRow>, seen: set<string>): seq<EventRow> {
    LinkRows(H, chainId, project, prev, length + 1, FirstOccurrences(batch, seen))
  }

  /** Sealing one more batch continues the one-pass log. */
  lemma SealedLogExtends(H: Digest, chainId: string, project: string, drained: seq<PendingRow>,
                         batch: seq<PendingRow>)
    ensures var log := SealedLog(H, chainId, project, drained);
            SealedLog(H, chainId, project, drained + batch)
            == log + BatchRows(H, chainId, project, TipHash("", log), |log|, batch, Externals(drained))
  {
    hide EventHash, BuildEventRow;
    var old', new' := FirstOccurrences(drained, {}), FirstOccurrences(batch, Externals(drained));
    assert FirstOccurrences(drained + batch, {}) == old' + new' by {
      FirstOccurrencesAppend(drained, batch, {});
      assert {} + Externals(drained) == Externals(drained);
    }
    LinkRowsAppend(H, chainId, project, "", 1, old', new');
  }
}
