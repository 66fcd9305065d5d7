/**
  The session's proxy-ticket cache `$_SESSION['cas_pt']`: one proxy ticket per
  host name of the webmail node that connects to IMAP (`php_uname('n')`).
*/
module TicketCache {

  type Tickets = map<string, string>

  /** The ticket stored for `host`; a missing entry reads as null, written "". */
  function Lookup(t: Tickets, host: string): string {
    if host in t then t[host] else ""
  }

  /** Stores `ticket` for `host` and leaves every other host's entry alone. */
  function Store(t: Tickets, host: string, ticket: string): (r: Tickets)
    ensures Lookup(r, host) == ticket
    ensures forall h :: h != host ==> Lookup(r, h) == Lookup(t, h)
    ensures r.Keys == t.Keys + {host}
  {
    t[host := ticket]
  }
}
