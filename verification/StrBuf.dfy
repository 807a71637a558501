/** The growable byte buffer (plm_k8s_template.c:29-114). */
module StrBuf {
  import opened Strings

  function Pow2(k: nat): (r: nat)
    ensures r > 0
  {
    if k == 0 then 1 else 2 * Pow2(k - 1)
  }

  /** The allocator has refused one of the first `requests` requests. */
  ghost predicate Refused(grants: nat -> bool, requests: nat) {
    exists i: nat :: i < requests && !grants(i)
  }

  lemma RefusedNext(grants: nat -> bool, requests: nat)
    ensures Refused(grants, requests + 1) <==> Refused(grants, requests) || !grants(requests)
  {
  }

  class Buffer {
    ghost var text: string     // what has been appended so far
    var data: array<char>      // the heap block; length 0 stands for NULL
    var len: nat
    var cap: nat
    var failed: bool
    const grants: nat -> bool  // the allocator's answer to this buffer's n-th request
    var requests: nat          // requests made so far
    ghost var doublings: nat   // how often the first 256 bytes were doubled
    ghost var moved: nat       // bytes carried over by all reallocations so far

    ghost predicate Valid()
      reads this, data
    {
      && len <= cap == data.Length
      && text == data[..len]
      && (failed <==> Refused(grants, requests)) && (failed ==> cap == 0)
      && (cap > 0 ==> len < cap && data[len] == '\0' && Sized(len + 1) && moved < cap)
    }

    /** The capacity is 256 doubled some number of times, and no more often than `need` bytes ask for. */
    ghost predicate Sized(need: nat)
      reads this
    {
      cap == 256 * Pow2(doublings) && (cap == 256 || cap < 2 * need)
    }

    constructor (grants: nat -> bool)
      ensures Valid() && fresh(data) && !failed && text == "" && cap == 0 && requests == 0
      ensures this.grants == grants
    {
      data := new char[0];
      len, cap, failed, requests := 0, 0, false, 0;
      this.grants := grants;
      text, doublings, moved := "", 0, 0;
    }

    /** Room for `extra` more bytes and the terminator, or the latched failure. */
    method Reserve(extra: nat)
      requires Valid() && extra > 0
      modifies this
      ensures data == old(data) || fresh(data)
      ensures old(failed) ==> failed
      ensures failed ==> Valid()
      ensures !failed ==> text == old(text) && len == old(len) && len + extra < cap == data.Length
      ensures !failed ==> text == data[..len] && Sized(len + extra + 1) && moved < cap
      ensures failed <==> Refused(grants, requests)
    {
      if failed {
        return;
      }
      if len + extra + 1 <= cap {
        return;
      }
      var newcap := if cap == 0 then 256 else cap;
      ghost var k: nat := if cap == 0 then 0 else doublings;
      while newcap < len + extra + 1
        invariant newcap == 256 * Pow2(k)
        invariant newcap == 256 || newcap == cap || newcap < 2 * (len + extra + 1)
        invariant cap == 0 || newcap == cap || newcap >= 2 * cap
        decreases len + extra + 1 - newcap
      {
        newcap := newcap * 2;
        k := k + 1;
      }
      RefusedNext(grants, requests);
      requests := requests + 1;
      if !grants(requests - 1) {
        data, text := new char[0], "";
        len, cap, failed := 0, 0, true;
        return;
      }
      var bigger := new char[newcap];
      forall i | 0 <= i < len {
        bigger[i] := data[i];
      }
      moved := if cap == 0 then 0 else moved + cap;
      data, cap, doublings := bigger, newcap, k;
    }

    /** Appends `s`, unless the buffer has failed before or fails now. */
    method AppendN(s: string)
      requires Valid()
      modifies this, data
      ensures Valid() && (data == old(data) || fresh(data))
      ensures old(failed) ==> failed
      ensures !failed ==> text == old(text) + s
    {
      if failed || |s| == 0 {
        return;
      }
      Reserve(|s|);
      if failed {
        return;
      }
      Write(s);
      len, text := len + |s|, text + s;
    }

    /** memcpy behind the text, and the terminator. */
    method Write(s: string)
      requires len + |s| < data.Length
      modifies data
      ensures data[..len + |s|] == old(data[..len]) + s && data[len + |s|] == '\0'
    {
      forall i | 0 <= i < |s| {
        data[len + i] := s[i];
      }
      data[len + |s|] := '\0';
      assert data[..len] == old(data[..len]);
    }

    /** Hands the bytes over and leaves an empty buffer; nothing comes back exactly if a request was refused. */
    method Release() returns (r: Option<string>)
      requires Valid()
      modifies this
      ensures Valid() && failed == old(failed) && requests == old(requests)
      ensures r == if Refused(grants, requests) then None else Some(old(text))
      ensures !failed ==> text == "" && cap == 0
    {
      if failed {
        return None;
      }
      r := Some(data[..len]);
      data, text := new char[0], "";
      len, cap := 0, 0;
    }
  }

  // ------------------------------------------------- growth on a 64-bit size_t

  const WORD: nat := 0x1_0000_0000_0000_0000
  const HALF: nat := 0x8000_0000_0000_0000

  /** The loop variable after `k` rounds of the growth loop on a 64-bit machine. */
  function Grown(cap: nat, k: nat): nat {
    if k == 0 then cap else Grown(cap, k - 1) * 2 % WORD
  }

  lemma {:induction false} Pow2Sum(a: nat, b: nat)
    ensures Pow2(a + b) == Pow2(a) * Pow2(b)
  {
    if a == 0 {
      assert Pow2(0) == 1;
    } else {
      Pow2Sum(a - 1, b);
      var x, y := Pow2(a - 1), Pow2(b);
      assert Pow2(a + b) == 2 * Pow2((a - 1) + b);
      assert 2 * (x * y) == (2 * x) * y;
    }
  }

  lemma HalfIsPow2()
    ensures 256 * Pow2(55) == HALF
  {
    assert Pow2(5) == 32 by {
      Pow2Sum(2, 3);
    }
    hide Pow2;
    Pow2Sum(5, 5);
    Pow2Sum(10, 10);
    assert Pow2(20) == 0x10_0000;
    Pow2Sum(20, 20);
    assert Pow2(40) == 0x100_0000_0000;
    Pow2Sum(40, 10);
    Pow2Sum(50, 5);
    assert Pow2(55) == 0x80_0000_0000_0000;
  }

  lemma {:induction false} Pow2Monotone(a: nat, b: nat)
    requires a <= b
    ensures Pow2(a) <= Pow2(b)
  {
    if a < b {
      Pow2Monotone(a, b - 1);
    }
  }

  lemma {:induction false} GrownValue(d: nat, k: nat)
    requires d <= 55
    ensures Grown(256 * Pow2(d), k) == if d + k <= 55 then 256 * Pow2(d + k) else 0
  {
    HalfIsPow2();
    if k == 0 {
      Pow2Monotone(d, 55);
    } else {
      GrownValue(d, k - 1);
      if d + k <= 55 {
        Pow2Monotone(d + k, 55);
      }
    }
  }

  /** In 64 bits the growth loop of Reserve ends exactly when the request is at most 2^63 bytes: above that
      the doubled capacity wraps to zero and stays there. */
  lemma GrowthEnds(d: nat, need: nat)
    requires d <= 55 && need > 0
    ensures (exists k: nat :: Grown(256 * Pow2(d), k) >= need) <==> need <= HALF
  {
    HalfIsPow2();
    if need <= HALF {
      GrownValue(d, 55 - d);
      assert Grown(256 * Pow2(d), 55 - d) >= need;
    } else {
      forall k: nat
        ensures Grown(256 * Pow2(d), k) < need
      {
        GrownValue(d, k);
        if d + k <= 55 {
          Pow2Monotone(d + k, 55);
        }
      }
    }
  }

  /** For such requests the 64-bit loop goes through the very capacities that the unbounded one in Reserve does. */
  lemma GrowthAgrees(d: nat, k: nat, need: nat)
    requires d <= 55 && need <= HALF
    requires forall c: nat :: d <= c < d + k ==> 256 * Pow2(c) < need
    ensures Grown(256 * Pow2(d), k) == 256 * Pow2(d + k) < WORD
  {
    HalfIsPow2();
    assert d + k <= 55;
    GrownValue(d, k);
    Pow2Monotone(d + k, 55);
  }

  /** The test for room in the buffer is right on 64 bits exactly if length, request and terminator together fit
      into a word. */
  lemma RoomExact(len: nat, extra: nat, cap: nat)
    requires len <= cap < WORD && extra < WORD && (cap > 0 ==> len < cap)
    ensures ((len + extra + 1) % WORD <= cap <==> len + extra + 1 <= cap) <==> len + extra + 1 < WORD
  {
    if len + extra + 1 >= WORD {
      assert (len + extra + 1) % WORD == len + extra + 1 - WORD;
    }
  }
}
