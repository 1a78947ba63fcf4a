/** What `UpdateableZipFile` promises, proved about the rebuild specification. */
module ZipUpdateProperties {
  import opened Wrappers
  import opened Files
  import opened ZipUpdate

  predicate UniqueNames(entries: seq<ZipEntry>)
  {
    forall i, j :: 0 <= i < j < |entries| ==> entries[i].name != entries[j].name
  }

  predicate AllIntact(entries: seq<ZipEntry>)
  {
    forall i :: 0 <= i < |entries| ==> entries[i].intact
  }

  predicate NoClosedBuffers(replace: map<string, Staged>)
  {
    forall k :: k in replace && replace[k].Buffer? ==> !replace[k].closed
  }

  /** The archive the rebuild is meant to produce, member by member: a
      deleted member is dropped, a staged one gets the staged contents under
      its old `ZipInfo`, any other is kept as it is. */
  function Expected(items: seq<ZipEntry>, replace: map<string, Staged>): seq<ZipEntry>
  {
    if items == [] then []
    else
      var e := items[|items| - 1];
      Expected(items[..|items| - 1], replace)
        + if e.name !in replace then [e]
          else match replace[e.name]
            case DeleteMarker => []
            case Buffer(data, _) => [ZipEntry(e.name, e.info, data, true)]
  }

  /** The staged entries the rebuild does not consume. */
  function Unconsumed(items: seq<ZipEntry>, replace: map<string, Staged>): map<string, Staged>
  {
    map k | k in replace && k !in Names(items) :: replace[k]
  }

  lemma ReadUniqueMember(archive: seq<ZipEntry>, k: nat)
    requires UniqueNames(archive) && AllIntact(archive) && k < |archive|
    ensures ReadMember(archive, archive[k].name) == Success(archive[k].data)
  {
    assert Names(archive)[k] == archive[k].name;
    var i := LastNamed(archive, archive[k].name);
    assert i == k;
  }

  lemma {:induction false} RebuildPrefixIsExpected(archive: seq<ZipEntry>, n: nat, replace: map<string, Staged>)
    requires n <= |archive|
    requires UniqueNames(archive) && AllIntact(archive) && NoClosedBuffers(replace)
    ensures RebuildPrefix(archive, archive[..n], replace)
      == RebuildState(Expected(archive[..n], replace), Unconsumed(archive[..n], replace), None)
  {
    if n > 0 {
      var items := archive[..n];
      var init := archive[..n - 1];
      assert items[..n - 1] == init;
      RebuildPrefixIsExpected(archive, n - 1, replace);
      var e := archive[n - 1];
      assert items[n - 1] == e;
      assert e.name !in Names(init) by {
        forall i | 0 <= i < |init| ensures Names(init)[i] != e.name {
          assert Names(init)[i] == archive[i].name;
        }
      }
      assert Names(items) == Names(init) + [e.name];
      var pending := Unconsumed(init, replace);
      assert e.name in pending <==> e.name in replace;
      assert Unconsumed(items, replace) == pending - {e.name};
      if e.name !in replace {
        ReadUniqueMember(archive, n - 1);
        assert ZipEntry(e.name, e.info, e.data, true) == e;
      }
    }
  }

  /** For an archive without duplicate or damaged members and with no closed
      temporary file, the rebuild produces exactly `Expected` and consumes
      the staged entry of every member it meets. */
  lemma RebuildIsExpected(archive: seq<ZipEntry>, replace: map<string, Staged>)
    requires UniqueNames(archive) && AllIntact(archive) && NoClosedBuffers(replace)
    ensures Rebuild(archive, replace) == RebuildState(Expected(archive, replace), Unconsumed(archive, replace), None)
  {
    RebuildPrefixIsExpected(archive, |archive|, replace);
    assert archive[..|archive|] == archive;
  }

  /** Members nothing was staged for survive unchanged, in order. */
  lemma {:induction false} ExpectedWithoutStaging(items: seq<ZipEntry>, replace: map<string, Staged>)
    requires forall i :: 0 <= i < |items| ==> items[i].name !in replace
    ensures Expected(items, replace) == items
  {
    if items != [] {
      var init := items[..|items| - 1];
      forall i | 0 <= i < |init| ensures init[i].name !in replace {
        assert init[i] == items[i];
      }
      ExpectedWithoutStaging(init, replace);
    }
  }

  /** Leaving the `with` block commits every staged change: the archive
      becomes `Expected`, and only staged names that are not members remain
      in `_replace` (with their temporary files closed). */
  lemma ExitCommitsStagedChanges(entries: seq<ZipEntry>, replace: map<string, Staged>)
    requires UniqueNames(entries) && AllIntact(entries) && NoClosedBuffers(replace)
    ensures ExitEffect(entries, replace).2 == None
    ensures ExitEffect(entries, replace).0 == Expected(entries, replace)
    ensures ExitEffect(entries, replace).1 == CloseAll(Unconsumed(entries, replace))
  {
    if |replace| == 0 {
      assert replace == map[];
      ExpectedWithoutStaging(entries, replace);
    } else {
      RebuildIsExpected(entries, replace);
    }
  }

  /** Writing the same member twice inside the block stages the
      concatenation of both writes. */
  lemma StagingAppends(replace: map<string, Staged>, name: string, a: seq<byte>, b: seq<byte>)
    requires StageBytes(replace, name, a).Success?
    ensures var prior := if name in replace then replace[name].data else [];
      StageBytes(StageBytes(replace, name, a).value, name, b) == Success(replace[name := Buffer(prior + a + b, false)])
  {
    if name in replace {
      var d := replace[name].data;
      var r1 := replace[name := Buffer(d + a, false)];
      assert StageBytes(replace, name, a) == Success(r1);
      assert d + a + b == (d + a) + b;
      assert r1[name := Buffer((d + a) + b, false)] == replace[name := Buffer(d + a + b, false)];
    } else {
      var r1 := replace[name := Buffer(a, false)];
      assert StageBytes(replace, name, a) == Success(r1);
      assert [] + a + b == a + b;
      assert r1[name := Buffer(a + b, false)] == replace[name := Buffer([] + a + b, false)];
    }
  }

  /** After `remove_file`, staging new contents for the member fails and
      leaves the marker in place. */
  lemma WriteAfterRemoveFails(replace: map<string, Staged>, name: string, bytes: seq<byte>)
    ensures StageBytes(replace[name := DeleteMarker], name, bytes) == Failure(WriteToDeleted(name))
  {
  }

  /** With two members of the same name, staged contents replace only the
      first copy; the second keeps the data of the last copy, which is also
      what reading the name returns afterwards. */
  lemma DuplicateMemberKeepsOldContents(i1: EntryInfo, i2: EntryInfo, old1: seq<byte>, old2: seq<byte>, newData: seq<byte>)
    ensures var archive := [ZipEntry("a", i1, old1, true), ZipEntry("a", i2, old2, true)];
      var st := Rebuild(archive, map["a" := Buffer(newData, false)]);
      && st == RebuildState([ZipEntry("a", i1, newData, true), ZipEntry("a", i2, old2, true)], map[], None)
      && ReadMember(st.written, "a") == Success(old2)
  {
    var archive := [ZipEntry("a", i1, old1, true), ZipEntry("a", i2, old2, true)];
    var replace := map["a" := Buffer(newData, false)];
    assert archive[..1][..0] == [];
    assert replace - {"a"} == map[];
    assert RebuildPrefix(archive, archive[..1], replace)
      == RebuildState([ZipEntry("a", i1, newData, true)], map[], None);
    assert ReadMember(archive, "a") == Success(old2);
    assert archive[..|archive| - 1] == archive[..1];
    var written := [ZipEntry("a", i1, newData, true), ZipEntry("a", i2, old2, true)];
    assert Rebuild(archive, replace) == RebuildState(written, map[], None);
    assert LastNamed(written, "a") == 1;
  }
}
