/** A proxy user as the object the connection handlers update. */
module Users {
  import opened Admission

  class User {
    var activeIPs: map<IP, int>
    var cooldownIPs: map<IP, int>
    var usedBytes: int
    const ipLimit: int
    const dataLimit: int

    function View(): Admission.User
      reads this
    {
      Admission.User(activeIPs, cooldownIPs, ipLimit, dataLimit, usedBytes)
    }

    constructor (ipLimit: int, dataLimit: int)
      ensures View() == Fresh(ipLimit, dataLimit).user
    {
      activeIPs, cooldownIPs, usedBytes := map[], map[], 0;
      this.ipLimit, this.dataLimit := ipLimit, dataLimit;
    }

    /** Deletes the expired cooldowns one by one, in any order, before deciding. */
    method CheckConnect(clientIP: IP, now: int) returns (verdict: Verdict)
      modifies this`cooldownIPs
      ensures verdict == Check(old(View()), clientIP, now).verdict
      ensures View() == Check(old(View()), clientIP, now).user
    {
      if dataLimit > 0 && usedBytes >= dataLimit {
        return QuotaExceeded;
      }
      if ipLimit <= 0 {
        return Allow;
      }
      ghost var was := cooldownIPs;
      var ips := cooldownIPs.Keys;
      while ips != {}
        invariant ips <= cooldownIPs.Keys
        invariant forall ip :: ip in cooldownIPs <==> ip in was && (ip in ips || now - was[ip] <= COOLDOWN)
        invariant forall ip :: ip in cooldownIPs ==> cooldownIPs[ip] == was[ip]
        decreases |ips|
      {
        var ip :| ip in ips;
        if now - cooldownIPs[ip] > COOLDOWN {
          cooldownIPs := cooldownIPs - {ip};
        }
        ips := ips - {ip};
      }
      assert cooldownIPs == Expire(was, now);
      if clientIP in activeIPs && activeIPs[clientIP] > 0 {
        return Allow;
      }
      if clientIP in cooldownIPs {
        return InCooldown;
      }
      if |activeIPs| >= ipLimit {
        return LimitReached;
      }
      return Allow;
    }

    method MarkConnect(clientIP: IP)
      modifies this`activeIPs, this`cooldownIPs
      ensures View() == Connect(old(View()), clientIP)
    {
      activeIPs := activeIPs[clientIP := if clientIP in activeIPs then activeIPs[clientIP] + 1 else 1];
      cooldownIPs := cooldownIPs - {clientIP};
    }

    method MarkDisconnect(clientIP: IP, now: int)
      modifies this`activeIPs, this`cooldownIPs
      ensures View() == Disconnect(old(View()), clientIP, now)
    {
      ghost var was := activeIPs;
      activeIPs := activeIPs[clientIP := if clientIP in activeIPs then activeIPs[clientIP] - 1 else -1];
      if activeIPs[clientIP] <= 0 {
        activeIPs := activeIPs - {clientIP};
        assert activeIPs == was - {clientIP};
        if ipLimit > 0 {
          cooldownIPs := cooldownIPs[clientIP := now];
        }
      }
    }

    method AddUsedBytes(n: int)
      modifies this`usedBytes
      ensures usedBytes == old(usedBytes) + n
    {
      usedBytes := usedBytes + n;
    }
  }
}
