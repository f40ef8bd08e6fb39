/** The in-process switchboard: one FIFO mailbox per registered address. */
module Transport {
  import opened Common

  datatype Frame<+T> = Frame(source: string, payload: T)

  datatype TransportError = EmptyAddress | AlreadyRegistered | UnknownAddress

  class Switchboard<T> {
    var mailboxes: map<string, seq<Frame<T>>>
    /** Every frame ever accepted for, and ever drained from, each address. */
    ghost var sent: map<string, seq<Frame<T>>>
    ghost var drained: map<string, seq<Frame<T>>>

    /** FIFO and conservation: what was sent to an address is what was drained from it followed by
        what still waits there; nothing is lost, repeated, reordered or misdelivered. */
    ghost predicate Valid()
      reads this
    {
      && sent.Keys == mailboxes.Keys == drained.Keys
      && forall a :: a in mailboxes ==> a != "" && sent[a] == drained[a] + mailboxes[a]
    }

    constructor ()
      ensures Valid() && mailboxes == map[]
    {
      mailboxes, sent, drained := map[], map[], map[];
    }

    method Register(address: string) returns (r: Result<(), TransportError>)
      requires Valid()
      modifies this
      ensures Valid()
      ensures r.Err? <==> address == "" || address in old(mailboxes)
      ensures r.Err? ==> r.error == if address == "" then EmptyAddress else AlreadyRegistered
      ensures r.Err? ==> mailboxes == old(mailboxes) && sent == old(sent) && drained == old(drained)
      ensures r.Ok? ==> mailboxes == old(mailboxes)[address := []] && sent == old(sent)[address := []]
      ensures r.Ok? ==> drained == old(drained)[address := []]
    {
      if address == "" {
        return Err(EmptyAddress);
      }
      if address in mailboxes {
        return Err(AlreadyRegistered);
      }
      mailboxes, sent, drained := mailboxes[address := []], sent[address := []], drained[address := []];
      return Ok(());
    }

    method Deliver(dest: string, frame: Frame<T>) returns (r: Result<(), TransportError>)
      requires Valid()
      modifies this
      ensures Valid() && drained == old(drained)
      ensures r.Err? <==> dest !in old(mailboxes)
      ensures r.Err? ==> r.error == UnknownAddress
      ensures r.Err? ==> mailboxes == old(mailboxes) && sent == old(sent)
      ensures r.Ok? ==> sent == old(sent)[dest := old(sent)[dest] + [frame]]
    {
      if dest !in mailboxes {
        return Err(UnknownAddress);
      }
      mailboxes := mailboxes[dest := mailboxes[dest] + [frame]];
      sent := sent[dest := sent[dest] + [frame]];
      return Ok(());
    }

    method DrainOne(address: string) returns (r: Result<Option<Frame<T>>, TransportError>)
      requires Valid()
      modifies this
      ensures Valid() && sent == old(sent)
      ensures r.Err? <==> address !in old(mailboxes)
      ensures r.Err? ==> r.error == UnknownAddress
      ensures r.Err? ==> drained == old(drained)
      ensures r.Ok? && r.value.None? ==> drained == old(drained) && drained[address] == sent[address]
      ensures r.Ok? && r.value.Some? ==>
        drained == old(drained)[address := old(drained)[address] + [r.value.value]]
    {
      if address !in mailboxes {
        return Err(UnknownAddress);
      }
      var mailbox := mailboxes[address];
      if mailbox == [] {
        return Ok(None);
      }
      mailboxes := mailboxes[address := mailbox[1..]];
      drained := drained[address := drained[address] + [mailbox[0]]];
      return Ok(Some(mailbox[0]));
    }
  }
}
