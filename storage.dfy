/**
 * Object keys of the pipeline's bucket and the archive pass that moves processed raw
 * files from the landing prefix to the archive prefix.
 */
module Storage {

  newtype Byte = x: int | 0 <= x < 256

  /** The content of a stored object. */
  type Blob = seq<Byte>

  const LandingPrefix: string := "raw_data/to_process/"
  const ArchivePrefix: string := "raw_data/processed/"

  /** `s.split(sep)[-1]`: the part of `s` after its last `sep`, or all of `s` when it has none. */
  function LastSegment(s: string, sep: char): (r: string)
    ensures |r| <= |s| && r == s[|s| - |r|..]
    ensures sep !in r
    ensures sep in s ==> s[|s| - |r| - 1] == sep
    ensures sep !in s ==> r == s
  {
    if s == [] then []
    else if s[|s| - 1] == sep then []
    else
      var r := LastSegment(s[..|s| - 1], sep);
      assert s == s[..|s| - 1] + [s[|s| - 1]];
      r + [s[|s| - 1]]
  }

  /** A key whose text after the last '.' is exactly "json". */
  predicate IsJson(key: string) { LastSegment(key, '.') == "json" }

  /** The file name of a key: its text after the last '/'. */
  function BaseName(key: string): string { LastSegment(key, '/') }

  /** Where a processed landing file is archived: the archive prefix followed by its file name alone. */
  function ArchiveKey(key: string): (r: string)
    ensures |r| >= |ArchivePrefix| && r[..|ArchivePrefix|] == ArchivePrefix
  {
    ArchivePrefix + BaseName(key)
  }

  predicate InLanding(key: string)
  {
    |key| >= |LandingPrefix| && key[..|LandingPrefix|] == LandingPrefix
  }

  /** No archive key lies under the landing prefix ("raw_data/p…" against "raw_data/t…"). */
  lemma ArchiveKeyNotInLanding(key: string, other: string)
    requires InLanding(other)
    ensures ArchiveKey(key) != other
  {
    assert ArchiveKey(key)[9] == ArchivePrefix[9] == 'p';
    assert other[9] == LandingPrefix[9] == 't';
  }

  /**
   * What a listing of the landing prefix can return: distinct keys, each stored and each
   * under the landing prefix. It need not list every such key (one list call returns at
   * most a page of keys).
   */
  predicate IsListing(store: map<string, Blob>, keys: seq<string>)
  {
    && (forall i :: 0 <= i < |keys| ==> keys[i] in store && InLanding(keys[i]))
    && (forall i, j :: 0 <= i < j < |keys| ==> keys[i] != keys[j])
  }

  /** One iteration: a json key is copied to its archive key and then deleted; other keys are skipped. */
  function ArchiveStep(store: map<string, Blob>, key: string): map<string, Blob>
    requires key in store
  {
    if IsJson(key) then store[ArchiveKey(key) := store[key]] - {key} else store
  }

  /** The archive pass over a listing, key by key in listing order. */
  function ArchivePass(store: map<string, Blob>, keys: seq<string>): map<string, Blob>
    requires IsListing(store, keys)
    decreases |keys|
  {
    if keys == [] then store
    else
      var next := ArchiveStep(store, keys[0]);
      ListingAfterStep(store, keys);
      ArchivePass(next, keys[1..])
  }

  /** After the first key's step, the rest of the listing is still a listing of the store. */
  lemma ListingAfterStep(store: map<string, Blob>, keys: seq<string>)
    requires IsListing(store, keys) && keys != []
    ensures IsListing(ArchiveStep(store, keys[0]), keys[1..])
  {
    forall i | 0 <= i < |keys[1..]| ensures keys[1..][i] in ArchiveStep(store, keys[0]) {
      assert keys[1..][i] == keys[i + 1] != keys[0];
    }
  }

  /** The pass over a non-empty listing is the first key's step followed by the pass over the rest. */
  lemma ArchivePassUnfold(store: map<string, Blob>, keys: seq<string>)
    requires IsListing(store, keys) && keys != []
    ensures IsListing(ArchiveStep(store, keys[0]), keys[1..])
    ensures ArchivePass(store, keys) == ArchivePass(ArchiveStep(store, keys[0]), keys[1..])
  {
    ListingAfterStep(store, keys);
  }

  /**
   * The same unfolding, naming the state after the first step only by what the later steps
   * need of it: every key other than the first key and, for a json key, its archive key keeps
   * its presence and content.
   */
  lemma ArchivePassTail(store: map<string, Blob>, keys: seq<string>) returns (next: map<string, Blob>)
    requires IsListing(store, keys) && keys != []
    ensures IsListing(next, keys[1..])
    ensures ArchivePass(store, keys) == ArchivePass(next, keys[1..])
    ensures forall x :: x != keys[0] && (IsJson(keys[0]) ==> x != ArchiveKey(keys[0])) ==>
              (x in next <==> x in store) && (x in store ==> next[x] == store[x])
  {
    ArchivePassUnfold(store, keys);
    next := ArchiveStep(store, keys[0]);
  }

  /** One step leaves alone every key other than the two it touches. */
  lemma StepLeavesOthers(store: map<string, Blob>, key: string, x: string)
    requires key in store
    requires IsJson(key) ==> key != x && ArchiveKey(key) != x
    ensures x in ArchiveStep(store, key) <==> x in store
    ensures x in store ==> ArchiveStep(store, key)[x] == store[x]
  {
  }

  /**
   * A key that is not a listed json key and not the archive key of one is left exactly as
   * it was: present with the same content, or absent.
   */
  lemma {:induction false} ArchiveLeavesOthers(store: map<string, Blob>, keys: seq<string>, x: string)
    requires IsListing(store, keys)
    requires forall i :: 0 <= i < |keys| && IsJson(keys[i]) ==> keys[i] != x && ArchiveKey(keys[i]) != x
    ensures x in ArchivePass(store, keys) <==> x in store
    ensures x in store ==> ArchivePass(store, keys)[x] == store[x]
    decreases |keys|
  {
    if keys != [] {
      ArchivePassUnfold(store, keys);
      var next := ArchiveStep(store, keys[0]);
      StepLeavesOthers(store, keys[0], x);
      var rest := keys[1..];
      forall i | 0 <= i < |rest| && IsJson(rest[i])
        ensures rest[i] != x && ArchiveKey(rest[i]) != x
      {
        assert rest[i] == keys[i + 1];
      }
      ArchiveLeavesOthers(next, rest, x);
    }
  }

  /** Listed keys that are not json files stay in the landing area untouched. */
  lemma NonJsonKeysUntouched(store: map<string, Blob>, keys: seq<string>, i: nat)
    requires IsListing(store, keys) && i < |keys| && !IsJson(keys[i])
    ensures keys[i] in ArchivePass(store, keys)
    ensures ArchivePass(store, keys)[keys[i]] == store[keys[i]]
  {
    forall j | 0 <= j < |keys| && IsJson(keys[j]) ensures keys[j] != keys[i] && ArchiveKey(keys[j]) != keys[i] {
      ArchiveKeyNotInLanding(keys[j], keys[i]);
    }
    ArchiveLeavesOthers(store, keys, keys[i]);
  }

  /** The first listed key, when it is json, is gone after the pass. */
  lemma FirstJsonKeyRemoved(store: map<string, Blob>, keys: seq<string>)
    requires IsListing(store, keys) && keys != [] && IsJson(keys[0])
    ensures keys[0] !in ArchivePass(store, keys)
  {
    ArchivePassUnfold(store, keys);
    var next := ArchiveStep(store, keys[0]);
    assert keys[0] !in next;
    var rest := keys[1..];
    forall j | 0 <= j < |rest| && IsJson(rest[j])
      ensures rest[j] != keys[0] && ArchiveKey(rest[j]) != keys[0]
    {
      assert rest[j] == keys[j + 1];
      ArchiveKeyNotInLanding(rest[j], keys[0]);
    }
    ArchiveLeavesOthers(next, rest, keys[0]);
  }

  /** No listed json key remains in the landing area after the pass. */
  lemma {:induction false} JsonKeysRemoved(store: map<string, Blob>, keys: seq<string>, i: nat)
    requires IsListing(store, keys) && i < |keys| && IsJson(keys[i])
    ensures keys[i] !in ArchivePass(store, keys)
    decreases |keys|
  {
    if i == 0 {
      FirstJsonKeyRemoved(store, keys);
    } else {
      var next := ArchivePassTail(store, keys);
      assert keys[1..][i - 1] == keys[i];
      JsonKeysRemoved(next, keys[1..], i - 1);
    }
  }

  /** Two keys share an archive key exactly when they share a file name. */
  lemma ArchiveKeySameBaseName(a: string, b: string)
    ensures ArchiveKey(a) == ArchiveKey(b) <==> BaseName(a) == BaseName(b)
  {
    if ArchiveKey(a) == ArchiveKey(b) {
      assert BaseName(a) == ArchiveKey(a)[|ArchivePrefix|..];
      assert BaseName(b) == ArchiveKey(b)[|ArchivePrefix|..];
    }
  }

  /** The first key of the listing, when it is json and no later json key shares its file name. */
  /** Later json keys with another file name neither are nor archive to the first key's archive key. */
  lemma LaterKeysAvoidArchiveKey(keys: seq<string>)
    requires keys != [] && forall i :: 0 <= i < |keys| ==> InLanding(keys[i])
    requires forall j :: 0 < j < |keys| && IsJson(keys[j]) ==> BaseName(keys[j]) != BaseName(keys[0])
    ensures forall j :: 0 <= j < |keys[1..]| && IsJson(keys[1..][j]) ==>
              keys[1..][j] != ArchiveKey(keys[0]) && ArchiveKey(keys[1..][j]) != ArchiveKey(keys[0])
  {
    var rest := keys[1..];
    forall j | 0 <= j < |rest| && IsJson(rest[j])
      ensures rest[j] != ArchiveKey(keys[0]) && ArchiveKey(rest[j]) != ArchiveKey(keys[0])
    {
      assert rest[j] == keys[j + 1];
      ArchiveKeyNotInLanding(keys[0], keys[j + 1]);
      ArchiveKeySameBaseName(keys[j + 1], keys[0]);
    }
  }

  lemma FirstJsonKeyArchived(store: map<string, Blob>, keys: seq<string>)
    requires IsListing(store, keys) && keys != [] && IsJson(keys[0])
    requires forall j :: 0 < j < |keys| && IsJson(keys[j]) ==> BaseName(keys[j]) != BaseName(keys[0])
    ensures ArchiveKey(keys[0]) in ArchivePass(store, keys)
    ensures ArchivePass(store, keys)[ArchiveKey(keys[0])] == store[keys[0]]
  {
    ArchivePassUnfold(store, keys);
    var next := ArchiveStep(store, keys[0]);
    var dst := ArchiveKey(keys[0]);
    ArchiveKeyNotInLanding(keys[0], keys[0]);
    assert dst in next && next[dst] == store[keys[0]];
    LaterKeysAvoidArchiveKey(keys);
    ArchiveLeavesOthers(next, keys[1..], dst);
  }


  /**
   * The inductive step of `JsonKeyArchived`: after the first step, key i is key i - 1 of the
   * rest of the listing, still stored with its content, and still not followed by a json key
   * with its file name.
   */
  lemma JsonKeyArchivedTail(store: map<string, Blob>, keys: seq<string>, i: nat) returns (next: map<string, Blob>)
    requires IsListing(store, keys) && 0 < i < |keys|
    requires forall j :: i < j < |keys| && IsJson(keys[j]) ==> BaseName(keys[j]) != BaseName(keys[i])
    ensures IsListing(next, keys[1..])
    ensures ArchivePass(store, keys) == ArchivePass(next, keys[1..])
    ensures keys[1..][i - 1] == keys[i] && next[keys[i]] == store[keys[i]]
    ensures forall j :: i - 1 < j < |keys[1..]| && IsJson(keys[1..][j]) ==>
              BaseName(keys[1..][j]) != BaseName(keys[1..][i - 1])
  {
    next := ArchivePassTail(store, keys);
    var rest := keys[1..];
    assert rest[i - 1] == keys[i];
    assert keys[0] != keys[i];
    ArchiveKeyNotInLanding(keys[0], keys[i]);
    forall j | i - 1 < j < |rest| && IsJson(rest[j])
      ensures BaseName(rest[j]) != BaseName(rest[i - 1])
    {
      assert rest[j] == keys[j + 1];
    }
  }

  /**
   * A listed json key is archived under its file name with its original content, unless a
   * later listed json key has the same file name (the later copy then overwrites it).
   */
  lemma {:induction false} JsonKeyArchived(store: map<string, Blob>, keys: seq<string>, i: nat)
    requires IsListing(store, keys) && i < |keys| && IsJson(keys[i])
    requires forall j :: i < j < |keys| && IsJson(keys[j]) ==> BaseName(keys[j]) != BaseName(keys[i])
    ensures ArchiveKey(keys[i]) in ArchivePass(store, keys)
    ensures ArchivePass(store, keys)[ArchiveKey(keys[i])] == store[keys[i]]
    decreases |keys|
  {
    if i == 0 {
      FirstJsonKeyArchived(store, keys);
    } else {
      var next := JsonKeyArchivedTail(store, keys, i);
      JsonKeyArchived(next, keys[1..], i - 1);
    }
  }

  /** A stored key that is not a listed json key is still stored after the pass (possibly overwritten). */
  lemma {:induction false} ArchiveKeepsPresent(store: map<string, Blob>, keys: seq<string>, x: string)
    requires IsListing(store, keys) && x in store
    requires forall i :: 0 <= i < |keys| && IsJson(keys[i]) ==> keys[i] != x
    ensures x in ArchivePass(store, keys)
    decreases |keys|
  {
    if keys != [] {
      ArchivePassUnfold(store, keys);
      var next := ArchiveStep(store, keys[0]);
      var rest := keys[1..];
      forall i | 0 <= i < |rest| && IsJson(rest[i]) ensures rest[i] != x {
        assert rest[i] == keys[i + 1];
      }
      ArchiveKeepsPresent(next, rest, x);
    }
  }

  lemma FirstArchiveKeyPresent(store: map<string, Blob>, keys: seq<string>)
    requires IsListing(store, keys) && keys != [] && IsJson(keys[0])
    ensures ArchiveKey(keys[0]) in ArchivePass(store, keys)
  {
    ArchivePassUnfold(store, keys);
    var next := ArchiveStep(store, keys[0]);
    var rest := keys[1..];
    var dst := ArchiveKey(keys[0]);
    ArchiveKeyNotInLanding(keys[0], keys[0]);
    assert dst in next;
    forall j | 0 <= j < |rest| && IsJson(rest[j]) ensures rest[j] != dst {
      ArchiveKeyNotInLanding(keys[0], rest[j]);
    }
    ArchiveKeepsPresent(next, rest, dst);
  }

  /** Every listed json key has an archived copy under its file name after the pass. */
  lemma {:induction false} ArchiveKeyPresent(store: map<string, Blob>, keys: seq<string>, i: nat)
    requires IsListing(store, keys) && i < |keys| && IsJson(keys[i])
    ensures ArchiveKey(keys[i]) in ArchivePass(store, keys)
    decreases |keys|
  {
    if i == 0 {
      FirstArchiveKeyPresent(store, keys);
    } else {
      var next := ArchivePassTail(store, keys);
      var rest := keys[1..];
      assert rest[i - 1] == keys[i];
      ArchiveKeyPresent(next, rest, i - 1);
    }
  }

  /** The listed json keys of a listing. */
  function JsonKeys(keys: seq<string>): set<string>
  {
    set i | 0 <= i < |keys| && IsJson(keys[i]) :: keys[i]
  }

  /** The archive keys of the listed json keys of a listing. */
  function ArchiveKeys(keys: seq<string>): set<string>
  {
    set i | 0 <= i < |keys| && IsJson(keys[i]) :: ArchiveKey(keys[i])
  }

  /**
   * After the pass the bucket holds exactly its previous keys without the listed json keys,
   * plus the archive key of each of them.
   */
  lemma ArchivePassKeys(store: map<string, Blob>, keys: seq<string>)
    requires IsListing(store, keys)
    ensures ArchivePass(store, keys).Keys == (store.Keys - JsonKeys(keys)) + ArchiveKeys(keys)
  {
    var after := ArchivePass(store, keys);
    forall x | x in after ensures x in (store.Keys - JsonKeys(keys)) + ArchiveKeys(keys) {
      if x !in ArchiveKeys(keys) {
        if x in JsonKeys(keys) {
          var i :| 0 <= i < |keys| && IsJson(keys[i]) && keys[i] == x;
          JsonKeysRemoved(store, keys, i);
        }
        ArchiveLeavesOthers(store, keys, x);
      }
    }
    forall x | x in (store.Keys - JsonKeys(keys)) + ArchiveKeys(keys) ensures x in after {
      if x in ArchiveKeys(keys) {
        var i :| 0 <= i < |keys| && IsJson(keys[i]) && ArchiveKey(keys[i]) == x;
        ArchiveKeyPresent(store, keys, i);
      } else {
        ArchiveKeepsPresent(store, keys, x);
      }
    }
  }
}
