/** From values to the payload of a frame and back: serialization, then the stream filter. */
module Messages {
  import opened Wrappers
  import opened Text

  /** How a type of message is serialized; reading has no result when the archive throws. */
  datatype Archive<!T(!new)> = Archive(save: T -> Bytes, load: Bytes -> Option<T>) {
    ghost predicate Inverts() {
      forall t: T :: load(save(t)) == Some(t)
    }
  }

  /** A filter; the input side has no result when it throws. */
  datatype Filter = Filter(output: Bytes -> Bytes, input: Bytes -> Option<Bytes>) {
    ghost predicate Inverts() {
      forall b: Bytes :: input(output(b)) == Some(b)
    }
  }

  /** Copy-through. */
  function DefaultFilter(): Filter {
    Filter((b: Bytes) => b, (b: Bytes) => Some(b))
  }

  function Pack<T(!new)>(f: Filter, a: Archive<T>, t: T): Bytes {
    f.output(a.save(t))
  }

  function Unpack<T(!new)>(f: Filter, a: Archive<T>, payload: Bytes): Option<T> {
    match f.input(payload)
    case None => None
    case Some(b) => a.load(b)
  }

  /** What goes through an inverting archive and an inverting filter comes back. */
  lemma UnpackInverts<T(!new)>(f: Filter, a: Archive<T>, t: T)
    requires f.Inverts() && a.Inverts()
    ensures Unpack(f, a, Pack(f, a, t)) == Some(t)
  {
    assert f.input(f.output(a.save(t))) == Some(a.save(t));
  }

  lemma DefaultFilterInverts()
    ensures DefaultFilter().Inverts()
    ensures forall b: Bytes :: DefaultFilter().output(b) == b && DefaultFilter().input(b) == Some(b)
  {
  }
}
