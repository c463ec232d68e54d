// crypto/secure_bytes.py and the key lifecycle of crypto/key_manager.py:
// buffers that are zeroed when destroyed, and a ledger of every one created.

module SecureMemory {
  import opened Results
  import opened ByteStrings

  ghost predicate Zeroed(a: array<Byte>)
    reads a
  {
    forall i :: 0 <= i < a.Length ==> a[i] == 0
  }

  /** Every buffer made for key material or viewed plaintext is entered here on creation,
      so a buffer that is never destroyed cannot go unnoticed. */
  class Ledger {
    ghost var buffers: set<SecureBytes>
    ghost var scratch: set<array<Byte>>

    constructor ()
      ensures buffers == {} && scratch == {}
    {
      buffers := {};
      scratch := {};
    }

    /** Every buffer ever entered, except those still open, is destroyed and all zero. */
    ghost predicate WipedBut(open: set<SecureBytes>)
      reads this, buffers, scratch, set b: SecureBytes | b in buffers :: b.buffer
    {
      && (forall b :: b in buffers && b !in open ==> b.destroyed && Zeroed(b.buffer))
      && (forall a :: a in scratch ==> Zeroed(a))
    }

    ghost predicate AllWiped()
      reads this, buffers, scratch, set b: SecureBytes | b in buffers :: b.buffer
    {
      WipedBut({})
    }
  }

  class SecureBytes {
    const buffer: array<Byte>
    var destroyed: bool

    ghost predicate Valid()
      reads this, buffer
    {
      destroyed ==> Zeroed(buffer)
    }

    constructor (data: Bytes, ledger: Ledger)
      modifies ledger
      ensures fresh(this.buffer) && Valid() && !destroyed && buffer[..] == data
      ensures ledger.buffers == old(ledger.buffers) + {this} && ledger.scratch == old(ledger.scratch)
    {
      buffer := new Byte[|data|](i requires 0 <= i < |data| => data[i]);
      destroyed := false;
      new;
      assert buffer[..] == data;
      ledger.buffers := ledger.buffers + {this};
    }

    /** None stands for the error raised when the material is already destroyed. */
    method Reveal() returns (data: Option<Bytes>)
      ensures data == if destroyed then None else Some(buffer[..])
    {
      if destroyed {
        return None;
      }
      return Some(buffer[..]);
    }

    method Destroy()
      requires Valid()
      modifies this, buffer
      ensures destroyed && Zeroed(buffer)
    {
      if !destroyed {
        for i := 0 to buffer.Length
          invariant !destroyed
          invariant forall j :: 0 <= j < i ==> buffer[j] == 0
        {
          buffer[i] := 0;
        }
        destroyed := true;
      }
    }
  }

  /** A file key through its lifecycle: active, then destroyed. */
  class ManagedKey {
    const secure: SecureBytes
    var active: bool

    ghost predicate Valid()
      reads this, secure, secure.buffer
    {
      secure.Valid() && (active <==> !secure.destroyed)
    }

    constructor (material: Bytes, ledger: Ledger)
      modifies ledger
      ensures fresh(secure) && fresh(secure.buffer) && Valid() && active && secure.buffer[..] == material
      ensures ledger.buffers == old(ledger.buffers) + {secure} && ledger.scratch == old(ledger.scratch)
    {
      secure := new SecureBytes(material, ledger);
      active := true;
    }

    method Material() returns (material: Option<Bytes>)
      requires Valid()
      ensures material == if active then Some(secure.buffer[..]) else None
    {
      if !active {
        return None;
      }
      material := secure.Reveal();
    }

    method Destroy()
      requires Valid()
      modifies this, secure, secure.buffer
      ensures Valid() && !active && Zeroed(secure.buffer)
    {
      if active {
        secure.Destroy();
        active := false;
      }
    }
  }

  /** The loop that clears a bytearray held outside any SecureBytes. */
  method ZeroInPlace(plaintext: array<Byte>)
    modifies plaintext
    ensures Zeroed(plaintext)
  {
    for i := 0 to plaintext.Length
      invariant forall j :: 0 <= j < i ==> plaintext[j] == 0
    {
      plaintext[i] := 0;
    }
  }
}
