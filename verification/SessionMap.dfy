/** src/SessionMap.cpp and the constructor of src/Encoder.cpp, run by one process at a time:
    the loops over the shared array, proved against the functions of SessionTable.

    The critical sections around the loops are the subject of SessionSteps. */
module SessionMap {
  import opened SessionTable

  class SessionMap {
    const slots: array<Slot>
    var signalled: seq<int>  // processes sent SIGINT by update

    constructor (count: nat)
      ensures fresh(slots) && slots.Length == count && signalled == []
      ensures forall i :: 0 <= i < count ==> slots[i] == FREE
    {
      slots := new Slot[count](_ => FREE);
      signalled := [];
    }

    static method Terminated(list: seq<int>, pid: int) returns (gone: bool)
      ensures gone <==> pid !in list
    {
      for i := 0 to |list|
        invariant pid !in list[..i]
      {
        if list[i] == pid {
          return false;
        }
      }
      return true;
    }

    /** Zeroes the first slot of pid, ip first. */
    method Erase(pid: int)
      modifies slots
      ensures forall k :: 0 <= k < slots.Length && old(slots[k].pid) == pid
                          && (forall j :: 0 <= j < k ==> old(slots[j].pid) != pid)
                ==> slots[..] == old(slots[..])[k := FREE]
      ensures (forall k :: 0 <= k < slots.Length ==> old(slots[k].pid) != pid) ==> slots[..] == old(slots[..])
    {
      for i := 0 to slots.Length
        invariant slots[..] == old(slots[..])
        invariant forall j :: 0 <= j < i ==> slots[j].pid != pid
      {
        if slots[i].pid == pid {
          slots[i] := slots[i].(ip := "");
          slots[i] := slots[i].(pid := 0);
          break;
        }
      }
    }

    /** Drops exactly the sessions whose process is not in the snapshot. */
    method Cleanup(pidlist: seq<int>)
      modifies slots
      ensures slots[..] == Retain(old(slots[..]), pidlist)
    {
      for i := 0 to slots.Length
        invariant forall j :: 0 <= j < i ==> slots[j] == Retain(old(slots[..]), pidlist)[j] && Kept(slots[j], pidlist)
        invariant forall j :: i <= j < slots.Length ==> slots[j] == old(slots[j])
      {
        if slots[i].pid != 0 {
          var pid := slots[i].pid;
          var gone := Terminated(pidlist, pid);
          if gone {
            Erase(pid);
          }
        }
      }
    }

    method AlreadyExist(ip: string) returns (count: nat)
      ensures count == CountIp(slots[..], ip)
    {
      count := 0;
      for i := 0 to slots.Length
        invariant count == CountIp(slots[..i], ip)
      {
        assert slots[..i + 1][..i] == slots[..i];
        if slots[i].ip == ip {
          count := count + 1;
        }
      }
      assert slots[..slots.Length] == slots[..];
    }

    method GetPidByIp(ip: string) returns (pid: int)
      ensures var k := FirstIp(slots[..], ip); pid == if k < slots.Length then slots[k].pid else 0
    {
      for i := 0 to slots.Length
        invariant forall j :: 0 <= j < i ==> slots[j].ip != ip
      {
        if slots[i].ip == ip {
          FirstIpIs(slots[..], ip, i);
          return slots[i].pid;
        }
      }
      return 0;
    }

    method Add(ip: string, pid: int) returns (id: int)
      modifies slots
      ensures slots[..] == AddTo(old(slots[..]), ip, pid)
      ensures id == IdOr(FirstFree(old(slots[..])), slots.Length)
    {
      for i := 0 to slots.Length
        invariant slots[..] == old(slots[..])
        invariant forall j :: 0 <= j < i ==> slots[j].pid != 0
      {
        if slots[i].pid == 0 {
          FirstFreeIs(slots[..], i);
          slots[i] := slots[i].(pid := pid);
          slots[i] := slots[i].(ip := ip);
          return i;
        }
      }
      FirstFreeIs(slots[..], slots.Length);
      return -1;
    }

    method Remove(ip: string)
      modifies slots
      ensures slots[..] == ClearIp(old(slots[..]), ip)
    {
      for i := 0 to slots.Length
        invariant slots[..] == old(slots[..])
        invariant forall j :: 0 <= j < i ==> slots[j].ip != ip
      {
        if slots[i].ip == ip {
          FirstIpIs(slots[..], ip, i);
          slots[i] := slots[i].(ip := "");
          slots[i] := slots[i].(pid := 0);
          break;
        }
      }
    }

    /** Kills the old process of an address, clears its slot and registers the new process:
        the result is the cleared slot, which need not be the one registered. */
    method Update(ip: string, pid: int) returns (id: int)
      modifies slots, `signalled
      ensures slots[..] == AddTo(ClearIp(old(slots[..]), ip), ip, pid)
      ensures var k := FirstIp(old(slots[..]), ip);
              && id == IdOr(k, slots.Length)
              && signalled == old(signalled) + if k < slots.Length then [old(slots[k].pid)] else []
    {
      var i, result := 0, false;
      while i < slots.Length && !result
        invariant 0 <= i <= slots.Length
        invariant forall j :: 0 <= j < i ==> old(slots[..])[j].ip != ip
        invariant !result ==> slots[..] == old(slots[..]) && signalled == old(signalled)
        invariant result ==>
                    && i < slots.Length && old(slots[..])[i].ip == ip && slots[..] == old(slots[..])[i := FREE]
                    && signalled == old(signalled) + [old(slots[..])[i].pid]
        decreases slots.Length - i, !result
      {
        if slots[i].ip == ip {
          result := true;
          signalled := signalled + [slots[i].pid];
          slots[i] := slots[i].(ip := "");
          slots[i] := slots[i].(pid := 0);
        } else {
          i := i + 1;
        }
      }
      FirstIpIs(old(slots[..]), ip, i);
      var dummy := Add(ip, pid);
      return if result then i else -1;
    }
  }

  lemma FirstIpIs(t: Table, ip: string, k: nat)
    requires k <= |t| && (forall i :: 0 <= i < k ==> t[i].ip != ip) && (k < |t| ==> t[k].ip == ip)
    ensures FirstIp(t, ip) == k
  {}

  class Encoder {
    var encoderId: int

    /** Cleans the table, then replaces the session of this address or adds one. */
    constructor (sessions: SessionMap, pidlist: seq<int>, ipaddr: string, mypid: int)
      modifies sessions.slots, sessions`signalled
      ensures (sessions.slots[..], encoderId) == Register(old(sessions.slots[..]), Request(pidlist, ipaddr, mypid))
    {
      encoderId := -1;
      new;
      sessions.Cleanup(pidlist);
      var count := sessions.AlreadyExist(ipaddr);
      if count > 0 {
        encoderId := sessions.Update(ipaddr, mypid);
      } else {
        encoderId := sessions.Add(ipaddr, mypid);
      }
    }
  }
}
