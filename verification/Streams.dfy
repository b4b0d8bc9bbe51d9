/** Whole streams of mixed frames: what repeated reads return, and what is left unread. */
module Streams {
  import opened Wrappers
  import opened Bytes
  import opened Wire
  import opened WireProofs

  ghost predicate AllValid(items: seq<Item>) {
    forall it :: it in items ==> ValidItem(it)
  }

  /** The frames the read loop should see: every item but control and continuation frames. */
  function Meanings(items: seq<Item>): (fs: seq<WireFrame>)
  {
    if items == [] then []
    else
      match Meaning(items[0])
      case Some(f) => [f] + Meanings(items[1..])
      case None => Meanings(items[1..])
  }

  /** The control frames after the last frame that has a meaning. */
  function Trailing(items: seq<Item>): (ts: seq<Item>)
    ensures |ts| <= |items| && ts == items[|items| - |ts|..]
    ensures Meanings(ts) == []
  {
    if Meanings(items) == [] then items else Trailing(items[1..])
  }

  /** k successive reads: the frames returned and the bytes still unread. */
  function ReadMany(b: seq<Byte>, k: nat): (r: Option<(seq<WireFrame>, seq<Byte>)>)
  {
    if k == 0 then Some(([], b))
    else
      match Read(b)
      case Broken(_) => None
      case Got(f, used) =>
        var (fs, rest) :- ReadMany(b[used..], k - 1);
        Some(([f] + fs, rest))
  }

  /** Read until the stream fails: all frames, and the error that ended it. */
  function ReadAll(b: seq<Byte>): (r: (seq<WireFrame>, ReadError))
    decreases |b|
  {
    match Read(b)
    case Broken(e) => ([], e)
    case Got(f, used) =>
      var (fs, e) := ReadAll(b[used..]);
      ([f] + fs, e)
  }

  /** How one more printed frame in front changes a read. */
  lemma ReadPrinted(it: Item, rest: seq<Byte>)
    requires ValidItem(it)
    ensures Meaning(it).Some? ==> Read(Print(it) + rest) == Got(Meaning(it).value, |Print(it)|)
    ensures Meaning(it).None? ==>
              Read(Print(it) + rest) ==
              match Read(rest)
              case Broken(e) => Broken(e)
              case Got(f, used) => Got(f, |Print(it)| + used)
  {
    hide Wire.ReadOnce, Wire.Print, Wire.Meaning;
    ReadOnceInvertsPrint(it, rest);
    assert (Print(it) + rest)[|Print(it)|..] == rest;
  }

  /** Frames without a meaning are skipped: the next read is the read of what follows them. */
  lemma {:induction false} ControlFramesAreSkipped(items: seq<Item>, rest: seq<Byte>)
    requires AllValid(items) && Meanings(items) == []
    ensures Read(PrintAll(items) + rest) ==
            match Read(rest)
            case Broken(e) => Broken(e)
            case Got(f, used) => Got(f, |PrintAll(items)| + used)
  {
    hide Wire.Read, Wire.Print, Wire.Meaning;
    if items == [] {
      assert PrintAll(items) + rest == rest;
    } else {
      var more := PrintAll(items[1..]) + rest;
      assert PrintAll(items) + rest == Print(items[0]) + more;
      ReadPrinted(items[0], more);
      ControlFramesAreSkipped(items[1..], rest);
    }
  }

  lemma ReadManyPrinted(it: Item, rest: seq<Byte>, k: nat)
    requires ValidItem(it) && k > 0
    ensures ReadMany(Print(it) + rest, k) ==
            match Meaning(it)
            case None => ReadMany(rest, k)
            case Some(f) =>
              match ReadMany(rest, k - 1)
              case None => None
              case Some((fs, left)) => Some(([f] + fs, left))
  {
    hide Wire.Read, Wire.Print, Wire.Meaning;
    ReadPrinted(it, rest);
    var b := Print(it) + rest;
    assert b[|Print(it)|..] == rest;
    if Meaning(it).None? && Read(rest).Got? {
      assert b[Read(b).used..] == rest[Read(rest).used..];
    }
  }

  /**
   The reader inverts the printers on whole streams: as many reads as there are meaningful
   frames return exactly their meanings in order, and leave every later byte unread.
   */
  lemma {:induction false} MixedStreamIsReadBack(items: seq<Item>, rest: seq<Byte>)
    requires AllValid(items)
    ensures ReadMany(PrintAll(items) + rest, |Meanings(items)|) ==
            Some((Meanings(items), PrintAll(Trailing(items)) + rest))
    decreases |items|
  {
    hide Wire.Read, Wire.Print, Wire.Meaning;
    if Meanings(items) != [] {
      MixedStreamIsReadBack(items[1..], rest);
      MixedStreamStep(items, rest, PrintAll(items[1..]) + rest, PrintAll(Trailing(items[1..])) + rest);
    }
  }

  lemma MixedStreamStep(items: seq<Item>, rest: seq<Byte>, more: seq<Byte>, left: seq<Byte>)
    requires AllValid(items) && Meanings(items) != []
    requires more == PrintAll(items[1..]) + rest
    requires ReadMany(more, |Meanings(items[1..])|) == Some((Meanings(items[1..]), left))
    ensures ReadMany(PrintAll(items) + rest, |Meanings(items)|) == Some((Meanings(items), left))
  {
    hide Wire.Print, Wire.Meaning, ReadMany;
    assert PrintAll(items) + rest == Print(items[0]) + more;
    ReadManyPrinted(items[0], more, |Meanings(items)|);
  }

  /** When the last frame has a meaning, nothing but the bytes after the list is left. */
  lemma {:induction false} NothingTrails(items: seq<Item>)
    requires items != [] && Meaning(items[|items| - 1]).Some?
    ensures Trailing(items) == []
  {
    if |items| == 1 {
      assert Trailing(items) == Trailing(items[1..]);
    } else {
      NothingTrails(items[1..]);
      assert items[1..][|items| - 2] == items[|items| - 1];
      LastMeaningCounts(items);
    }
  }

  lemma {:induction false} LastMeaningCounts(items: seq<Item>)
    requires items != [] && Meaning(items[|items| - 1]).Some?
    ensures Meanings(items) != []
  {
    if |items| > 1 {
      assert items[1..][|items| - 2] == items[|items| - 1];
      LastMeaningCounts(items[1..]);
    }
  }

  // ------------------------------------------------------- arbitrary byte streams

  /** The frames a byte stream begins with, up to the first round that fails. */
  ghost function ItemsOf(b: seq<Byte>): (items: seq<Item>)
    decreases |b|
  {
    if ReadOnce(b).Failed? then [] else [ItemAt(b)] + ItemsOf(b[ReadOnce(b).used..])
  }

  ghost function TailOf(b: seq<Byte>): (t: seq<Byte>)
    decreases |b|
  {
    if ReadOnce(b).Failed? then b else TailOf(b[ReadOnce(b).used..])
  }

  lemma {:induction false} StreamSplits(b: seq<Byte>)
    ensures AllValid(ItemsOf(b))
    ensures b == PrintAll(ItemsOf(b)) + TailOf(b)
    ensures ReadOnce(TailOf(b)).Failed?
    decreases |b|
  {
    hide Wire.ReadOnce, Wire.Print, WireProofs.ItemAt;
    if !ReadOnce(b).Failed? {
      var n := ReadOnce(b).used;
      AcceptedIsPrinted(b);
      StreamSplits(b[n..]);
      assert b == b[..n] + b[n..];
      assert ItemsOf(b)[1..] == ItemsOf(b[n..]);
    }
  }

  lemma ReadAllOnce(b: seq<Byte>)
    requires !ReadOnce(b).Failed?
    ensures var rest := ReadAll(b[ReadOnce(b).used..]);
            ReadAll(b) == if ReadOnce(b).Skipped? then rest else ([ReadOnce(b).frame] + rest.0, rest.1)
  {
    hide Wire.ReadOnce;
    var n := ReadOnce(b).used;
    if ReadOnce(b).Skipped? && Read(b[n..]).Got? {
      assert b[Read(b).used..] == b[n..][Read(b[n..]).used..];
    }
  }

  /**
   Every byte stream is a list of printed valid frames followed by a tail no round accepts;
   reading it to the end returns exactly the meanings of those frames and the tail's error.
   */
  lemma {:induction false} EveryStreamIsFrames(b: seq<Byte>)
    ensures AllValid(ItemsOf(b))
    ensures b == PrintAll(ItemsOf(b)) + TailOf(b)
    ensures ReadOnce(TailOf(b)).Failed?
    ensures ReadAll(b) == (Meanings(ItemsOf(b)), ReadOnce(TailOf(b)).error)
    decreases |b|
  {
    hide Wire.ReadOnce, Wire.Read, Wire.Print, Wire.PrintAll, Wire.Meaning, WireProofs.ItemAt;
    StreamSplits(b);
    if ReadOnce(b).Failed? {
      assert Read(b) == Broken(ReadOnce(b).error) by { ReadFails(b); }
    } else {
      var n := ReadOnce(b).used;
      EveryStreamIsFrames(b[n..]);
      AcceptedIsPrinted(b);
      ReadAllOnce(b);
      assert ItemsOf(b)[1..] == ItemsOf(b[n..]);
    }
  }

  /** No two lists of frames print alike: a stream splits into exactly the frames it was printed from,
      the skipped ones included. */
  lemma {:induction false} PrintedListIsRecovered(items: seq<Item>, tail: seq<Byte>)
    requires AllValid(items) && ReadOnce(tail).Failed?
    ensures ItemsOf(PrintAll(items) + tail) == items && TailOf(PrintAll(items) + tail) == tail
  {
    hide Wire.ReadOnce, Wire.Print, Wire.Meaning, WireProofs.ItemAt;
    var b := PrintAll(items) + tail;
    if items == [] {
      assert b == tail;
    } else {
      var rest := PrintAll(items[1..]) + tail;
      assert b == Print(items[0]) + rest;
      ReadOnceInvertsPrint(items[0], rest);
      PrintedIsRecovered(items[0], rest);
      OutcomeUses(items[0]);
      assert b[|Print(items[0])|..] == rest;
      PrintedListIsRecovered(items[1..], tail);
    }
  }

  lemma OutcomeUses(it: Item)
    requires ValidItem(it)
    ensures !Outcome(it).Failed? && Outcome(it).used == |Print(it)|
  {
  }

  lemma ReadFails(b: seq<Byte>)
    requires ReadOnce(b).Failed?
    ensures Read(b) == Broken(ReadOnce(b).error)
  {
  }
}
