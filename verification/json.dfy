/**
 * The JSON values the core builds and reads, as `boost::json` holds them:
 * an object is a list of members kept in insertion order, with unique keys.
 * The text form (`serialize`, `parse`) is not part of this module.
 */
module Json {
  import opened Wrappers

  datatype Json =
    | Null
    | Int(i: int)
    | Number(r: real)
    | Str(s: string)
    | Object(members: seq<Member>)

  datatype Member = Member(key: string, value: Json)

  /** No key occurs twice, as in every `boost::json::object`. */
  predicate UniqueKeys(ms: seq<Member>)
  {
    forall i, j :: 0 <= i < j < |ms| ==> ms[i].key != ms[j].key
  }

  /** `object::find`: the value stored under `k` by the first member with that key, if any. */
  function Get(ms: seq<Member>, k: string): Option<Json>
  {
    if ms == [] then None
    else if ms[0].key == k then Some(ms[0].value)
    else Get(ms[1..], k)
  }

  /** Lookup finds nothing exactly when no member has the key, and otherwise a member's value. */
  lemma {:induction false} GetFinds(ms: seq<Member>, k: string)
    ensures Get(ms, k).None? <==> forall i :: 0 <= i < |ms| ==> ms[i].key != k
    ensures Get(ms, k).Some? ==> exists i :: 0 <= i < |ms| && ms[i] == Member(k, Get(ms, k).value)
  {
    if ms != [] && ms[0].key != k {
      GetFinds(ms[1..], k);
      if Get(ms, k).Some? {
        var i :| 0 <= i < |ms[1..]| && ms[1..][i] == Member(k, Get(ms, k).value);
        assert ms[i + 1] == Member(k, Get(ms, k).value);
      } else {
        forall i | 0 <= i < |ms| ensures ms[i].key != k {
          if i > 0 {
            assert ms[i] == ms[1..][i - 1];
          }
        }
      }
    }
  }

  /** With unique keys, a member's key finds that member's value. */
  lemma {:induction false} GetMember(ms: seq<Member>, i: nat)
    requires UniqueKeys(ms) && i < |ms|
    ensures Get(ms, ms[i].key) == Some(ms[i].value)
  {
    if i > 0 {
      GetMember(ms[1..], i - 1);
    }
  }

  /** A member whose key no earlier member has is the one its key finds. */
  lemma {:induction false} GetFirst(ms: seq<Member>, i: nat)
    requires i < |ms|
    requires forall j :: 0 <= j < i ==> ms[j].key != ms[i].key
    ensures Get(ms, ms[i].key) == Some(ms[i].value)
  {
    if i > 0 {
      assert ms[1..][i - 1] == ms[i];
      GetFirst(ms[1..], i - 1);
    }
  }

  /** `obj[k] = v`: overwrite the value of an existing key in place, else append. */
  function Put(ms: seq<Member>, k: string, v: Json): (r: seq<Member>)
    ensures (forall i :: 0 <= i < |ms| ==> ms[i].key != k) ==> r == ms + [Member(k, v)]
  {
    if ms == [] then [Member(k, v)]
    else if ms[0].key == k then [Member(k, v)] + ms[1..]
    else [ms[0]] + Put(ms[1..], k, v)
  }

  /** After `obj[k] = v`, looking up `k` finds `v`. */
  lemma {:induction false} PutGetSame(ms: seq<Member>, k: string, v: Json)
    ensures Get(Put(ms, k, v), k) == Some(v)
  {
    if ms != [] && ms[0].key != k {
      var tail := Put(ms[1..], k, v);
      assert ([ms[0]] + tail)[1..] == tail;
      PutGetSame(ms[1..], k, v);
    }
  }

  /** `obj[k] = v` leaves what every other key finds unchanged. */
  lemma {:induction false} PutGetOther(ms: seq<Member>, k: string, v: Json, k': string)
    requires k' != k
    ensures Get(Put(ms, k, v), k') == Get(ms, k')
  {
    if ms != [] && ms[0].key != k {
      var tail := Put(ms[1..], k, v);
      assert ([ms[0]] + tail)[1..] == tail;
      PutGetOther(ms[1..], k, v, k');
    }
  }

  /** `obj[k] = v` keeps the keys unique. */
  lemma {:induction false} PutUnique(ms: seq<Member>, k: string, v: Json)
    requires UniqueKeys(ms)
    ensures UniqueKeys(Put(ms, k, v))
  {
    if ms != [] && ms[0].key != k {
      var tail := Put(ms[1..], k, v);
      PutUnique(ms[1..], k, v);
      PutGetOther(ms[1..], k, v, ms[0].key);
      GetFinds(ms[1..], ms[0].key);
      assert Get(ms[1..], ms[0].key).None?;
      GetFinds(tail, ms[0].key);
      assert forall i :: 0 <= i < |tail| ==> tail[i].key != ms[0].key;
    }
  }

  predicate IsDigit(c: char)
  {
    '0' <= c <= '9'
  }

  /** `std::to_string` on a non-negative number: its decimal digits. */
  function NatToString(n: nat): (s: string)
    ensures |s| >= 1 && IsDigit(s[0])
    ensures n >= 10 <==> |s| >= 2
  {
    if n < 10 then [(48 + n) as char]
    else NatToString(n / 10) + [(48 + n % 10) as char]
  }

  /** Every character of `to_string(n)` is a decimal digit. */
  lemma {:induction false} NatToStringDigits(n: nat)
    ensures forall i :: 0 <= i < |NatToString(n)| ==> IsDigit(NatToString(n)[i])
  {
    if n >= 10 {
      NatToStringDigits(n / 10);
    }
  }

  /** Different numbers give different strings, so numbered keys never clash. */
  lemma {:induction false} NatToStringInjective(a: nat, b: nat)
    requires NatToString(a) == NatToString(b)
    ensures a == b
  {
    var s := NatToString(a);
    if a >= 10 && b >= 10 {
      assert s[..|s| - 1] == NatToString(a / 10) == NatToString(b / 10);
      NatToStringInjective(a / 10, b / 10);
      assert (48 + a % 10) as char == s[|s| - 1] == (48 + b % 10) as char;
    }
  }

  /** A numbered key is never one of the named keys, whose first letter is not a digit. */
  lemma NatToStringNotNamed(n: nat, name: string)
    requires |name| >= 1 && !IsDigit(name[0])
    ensures NatToString(n) != name
  {
    assert IsDigit(NatToString(n)[0]);
  }

  /** Every key starts with a letter, as "num", "height", "width" and "poses" do. */
  predicate NamedKeys(ms: seq<Member>)
  {
    forall i :: 0 <= i < |ms| ==> |ms[i].key| >= 1 && !IsDigit(ms[i].key[0])
  }

  /** The keys are `to_string(first)`, `to_string(first + 1)`, ... in order. */
  predicate Numbered(ms: seq<Member>, first: nat)
  {
    forall i :: 0 <= i < |ms| ==> ms[i].key == NatToString(first + i)
  }

  /** Named members followed by numbered ones never repeat a key. */
  lemma NumberedUnique(named: seq<Member>, ms: seq<Member>, first: nat)
    requires UniqueKeys(named) && NamedKeys(named) && Numbered(ms, first)
    ensures UniqueKeys(named + ms)
  {
    var all := named + ms;
    forall i, j | 0 <= i < j < |all| ensures all[i].key != all[j].key {
      if j >= |named| {
        var kj := all[j].key;
        assert kj == NatToString(first + j - |named|);
        if i < |named| {
          NatToStringNotNamed(first + j - |named|, all[i].key);
        } else {
          assert all[i].key == NatToString(first + i - |named|);
          if all[i].key == kj {
            NatToStringInjective(first + i - |named|, first + j - |named|);
          }
        }
      }
    }
  }

  /** Assigning the next number's key to numbered members appends it, keeping them numbered. */
  lemma PutNextNumbered(ms: seq<Member>, first: nat, v: Json)
    requires Numbered(ms, first)
    ensures Put(ms, NatToString(first + |ms|), v) == ms + [Member(NatToString(first + |ms|), v)]
    ensures Numbered(ms + [Member(NatToString(first + |ms|), v)], first)
  {
    forall i | 0 <= i < |ms| ensures ms[i].key != NatToString(first + |ms|) {
      if ms[i].key == NatToString(first + |ms|) {
        NatToStringInjective(first + i, first + |ms|);
      }
    }
  }

  /** A numbered key is the key of no named member. */
  lemma NamedNotNumber(named: seq<Member>, k: nat)
    requires NamedKeys(named)
    ensures forall i :: 0 <= i < |named| ==> named[i].key != NatToString(k)
  {
    forall i | 0 <= i < |named| ensures named[i].key != NatToString(k) {
      NatToStringNotNamed(k, named[i].key);
    }
  }

  /** A number outside the numbered range is the key of no numbered member. */
  lemma NumberedOutside(ms: seq<Member>, first: nat, k: nat)
    requires Numbered(ms, first)
    requires k < first || first + |ms| <= k
    ensures forall i :: 0 <= i < |ms| ==> ms[i].key != NatToString(k)
  {
    forall i | 0 <= i < |ms| ensures ms[i].key != NatToString(k) {
      if ms[i].key == NatToString(k) {
        NatToStringInjective(first + i, k);
      }
    }
  }

  /** A number outside the numbered range is not the key of any member. */
  lemma NumberedAbsent(named: seq<Member>, ms: seq<Member>, first: nat, k: nat)
    requires NamedKeys(named) && Numbered(ms, first)
    requires k < first || first + |ms| <= k
    ensures Get(named + ms, NatToString(k)).None?
  {
    var all, key := named + ms, NatToString(k);
    NamedNotNumber(named, k);
    NumberedOutside(ms, first, k);
    forall i | 0 <= i < |all| ensures all[i].key != key {
      if i < |named| {
        assert all[i] == named[i];
      } else {
        assert all[i] == ms[i - |named|];
      }
    }
    GetFinds(all, key);
  }

  /** A number inside the numbered range finds its member's value. */
  lemma NumberedPresent(named: seq<Member>, ms: seq<Member>, first: nat, k: nat)
    requires NamedKeys(named) && Numbered(ms, first)
    requires first <= k < first + |ms|
    ensures Get(named + ms, NatToString(k)) == Some(ms[k - first].value)
  {
    var all, idx, key := named + ms, |named| + (k - first), NatToString(k);
    assert all[idx] == ms[k - first] && all[idx].key == key by {
      assert ms[k - first].key == NatToString(first + (k - first));
    }
    assert forall j :: 0 <= j < idx ==> all[j].key != key by {
      NamedNotNumber(named, k);
      forall j | 0 <= j < idx ensures all[j].key != key {
        if j < |named| {
          assert all[j] == named[j];
        } else {
          var m := j - |named|;
          assert all[j] == ms[m] && ms[m].key == NatToString(first + m);
          if all[j].key == key {
            NatToStringInjective(first + m, k);
          }
        }
      }
    }
    GetFirst(all, idx);
  }

  /**
   * Named members followed by numbered ones: the numbered keys present are
   * exactly those from `first` on, one per member, in order.
   */
  lemma NumberedLookup(named: seq<Member>, ms: seq<Member>, first: nat, k: nat)
    requires NamedKeys(named) && Numbered(ms, first)
    ensures first <= k < first + |ms| ==> Get(named + ms, NatToString(k)) == Some(ms[k - first].value)
    ensures k < first || first + |ms| <= k ==> Get(named + ms, NatToString(k)).None?
  {
    if first <= k < first + |ms| {
      NumberedPresent(named, ms, first, k);
    } else {
      NumberedAbsent(named, ms, first, k);
    }
  }

  /** Numbered members alone: key `to_string(k)` finds the member numbered k, if there is one. */
  lemma NumberedOnlyLookup(ms: seq<Member>, first: nat, k: nat)
    requires Numbered(ms, first)
    ensures first <= k < first + |ms| ==> Get(ms, NatToString(k)) == Some(ms[k - first].value)
    ensures k < first || first + |ms| <= k ==> Get(ms, NatToString(k)).None?
  {
    assert [] + ms == ms;
    NumberedLookup([], ms, first, k);
  }
}
