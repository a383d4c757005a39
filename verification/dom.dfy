/**
 * The slice of the browser document the modal touches: the document-level
 * `keydown` listeners and `document.body.style.overflow`; and the parent's
 * optional `onColorChange` callback.
 */
module Dom {

  /**
   * The `handleEscape` closure created by one run of a modal's effect. Every
   * run creates a new function, so a handler is identified by the modal and
   * the number of the run that created it.
   */
  datatype Handler = EscapeHandler(modal: nat, run: nat)

  /** No handler is registered twice. */
  predicate Distinct(hs: seq<Handler>)
  {
    forall i, j :: 0 <= i < j < |hs| ==> hs[i] != hs[j]
  }

  /** `addEventListener`: a listener already registered is not added again. */
  function With(hs: seq<Handler>, h: Handler): (r: seq<Handler>)
    ensures h in r
    ensures forall x :: x in r <==> x in hs || x == h
    ensures Distinct(hs) ==> Distinct(r)
  {
    if h in hs then hs else hs + [h]
  }

  /** `removeEventListener`: drops the listener if registered, keeps the others in order. */
  function Without(hs: seq<Handler>, h: Handler): (r: seq<Handler>)
    ensures forall x :: x in r <==> x in hs && x != h
    ensures h !in hs ==> r == hs
    ensures Distinct(hs) ==> Distinct(r)
  {
    if hs == [] then []
    else if hs[0] == h then Without(hs[1..], h)
    else
      var rest := Without(hs[1..], h);
      assert Distinct(hs) ==> Distinct(hs[1..]) by {
        if Distinct(hs) {
          forall i, j | 0 <= i < j < |hs[1..]| ensures hs[1..][i] != hs[1..][j] {
            assert hs[1..][i] == hs[i + 1] && hs[1..][j] == hs[j + 1];
          }
        }
      }
      assert Distinct(hs) ==> hs[0] !in rest by {
        if Distinct(hs) {
          forall k | 1 <= k < |hs| ensures hs[k] != hs[0] {}
          assert hs[0] !in hs[1..];
        }
      }
      assert Distinct(hs) ==> Distinct([hs[0]] + rest) by {
        if Distinct(hs) {
          DistinctCons(hs[0], rest);
        }
      }
      [hs[0]] + rest
  }

  lemma DistinctCons(h: Handler, hs: seq<Handler>)
    requires h !in hs && Distinct(hs)
    ensures Distinct([h] + hs)
  {
    forall i, j | 0 <= i < j < |[h] + hs| ensures ([h] + hs)[i] != ([h] + hs)[j] {
      if i == 0 {
        assert ([h] + hs)[j] == hs[j - 1];
      }
    }
  }

  /** In a list without repeats a registered handler occurs exactly once. */
  lemma {:induction false} DistinctOccursOnce(hs: seq<Handler>, h: Handler)
    requires Distinct(hs) && h in hs
    ensures multiset(hs)[h] == 1
  {
    assert hs == [hs[0]] + hs[1..];
    assert Distinct(hs[1..]) by {
      forall i, j | 0 <= i < j < |hs[1..]| ensures hs[1..][i] != hs[1..][j] {
        assert hs[1..][i] == hs[i + 1] && hs[1..][j] == hs[j + 1];
      }
    }
    if hs[0] == h {
      assert h !in hs[1..] by {
        forall k | 1 <= k < |hs| ensures hs[k] != h {}
      }
      assert multiset(hs[1..])[h] == 0;
    } else {
      DistinctOccursOnce(hs[1..], h);
    }
  }

  /** The registered handlers that belong to modal `id`. */
  function Owned(hs: seq<Handler>, id: nat): (r: set<Handler>)
    ensures forall h :: h in r <==> h in hs && h.modal == id
  {
    set h | h in hs && h.modal == id
  }

  /** Adding or removing one modal's handler changes only that modal's share of the list. */
  lemma OwnedAfterUpdate(hs: seq<Handler>, h: Handler, id: nat)
    ensures Owned(Without(hs, h), id) == Owned(hs, id) - {h}
    ensures h.modal == id ==> Owned(With(hs, h), id) == Owned(hs, id) + {h}
  {
  }

  /** The document's state as a value. */
  datatype DocState = DocState(keydown: seq<Handler>, overflow: string)

  /** The effect body when the modal is open: register the handler, lock scrolling. */
  function Acquired(d: DocState, h: Handler): (r: DocState)
    ensures h in r.keydown && r.overflow == "hidden"
    ensures forall x :: x in r.keydown <==> x in d.keydown || x == h
  {
    DocState(With(d.keydown, h), "hidden")
  }

  /** The effect cleanup: unregister the handler and reset (not restore) the overflow. */
  function Released(d: DocState, h: Handler): (r: DocState)
    ensures h !in r.keydown && r.overflow == ""
    ensures forall x :: x in r.keydown <==> x in d.keydown && x != h
  {
    DocState(Without(d.keydown, h), "")
  }

  /** Appending a listener and then removing it leaves the list as it was. */
  lemma {:induction false} WithoutAppended(hs: seq<Handler>, h: Handler)
    requires h !in hs
    ensures Without(hs + [h], h) == hs
  {
    if hs == [] {
      assert [h][1..] == [];
    } else {
      assert (hs + [h])[1..] == hs[1..] + [h];
      WithoutAppended(hs[1..], h);
      assert [hs[0]] + hs[1..] == hs;
    }
  }

  /**
   * A close-open-close cycle of one modal (cleanup of the closed run `h0`, an
   * open run `h1`, its cleanup) gives back exactly the listeners the document
   * had, but always leaves the overflow at '' whatever it was before.
   */
  lemma OpenCloseCycle(d: DocState, h0: Handler, h1: Handler)
    requires h0 !in d.keydown && h1 !in d.keydown
    ensures Released(Acquired(Released(d, h0), h1), h1) == DocState(d.keydown, "")
    ensures Released(Acquired(Released(d, h0), h1), h1) == d <==> d.overflow == ""
  {
    assert Without(d.keydown, h0) == d.keydown;
    WithoutAppended(d.keydown, h1);
  }

  /** The document object shared by every modal on the page. */
  class Document {
    var keydown: seq<Handler>
    var overflow: string

    ghost predicate Valid()
      reads this
    {
      Distinct(keydown)
    }

    function State(): DocState
      reads this
    {
      DocState(keydown, overflow)
    }

    constructor (overflow: string)
      ensures Valid() && keydown == [] && this.overflow == overflow
    {
      keydown := [];
      this.overflow := overflow;
    }

    method AddKeydownListener(h: Handler)
      requires Valid()
      modifies this
      ensures Valid() && keydown == With(old(keydown), h) && overflow == old(overflow)
    {
      if h !in keydown {
        keydown := keydown + [h];
      }
    }

    method RemoveKeydownListener(h: Handler)
      requires Valid()
      modifies this
      ensures Valid() && keydown == Without(old(keydown), h) && overflow == old(overflow)
    {
      keydown := Without(keydown, h);
    }

    method SetOverflow(value: string)
      modifies this
      ensures overflow == value && keydown == old(keydown)
    {
      overflow := value;
    }
  }

  /** The parent's `onColorChange` callback, seen through the names it receives. */
  class ColorChangeListener {
    var received: seq<string>

    constructor ()
      ensures received == []
    {
      received := [];
    }

    method Call(name: string)
      modifies this
      ensures received == old(received) + [name]
    {
      received := received + [name];
    }
  }
}
