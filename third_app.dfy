/**
 * The bounded producer/consumer pipeline: a generator creates files of a
 * random type and size and appends them to a shared queue of capacity
 * QUEUE_CAPACITY; a processor removes them from the head and "processes"
 * each for a time proportional to its size. Random draws are parameters,
 * sleeps become returned delays, and the wait()-guards become preconditions
 * (what each guard loop has established when it exits).
 */
module ThirdApp {

  const MIN_DELAY_MS := 100
  const MAX_DELAY_MS := 1000
  const MIN_SIZE := 10
  const MAX_SIZE := 100
  const QUEUE_CAPACITY := 5
  /** Milliseconds of processing per unit of file size. */
  const MS_PER_SIZE_UNIT := 7

  // ---------------------------------------------------------------------
  // FileType and File
  // ---------------------------------------------------------------------

  datatype FileType = XML | JSON | XLS

  /** FileType.values(): every constant once, in declaration order. */
  function FileTypeValues(): (vs: seq<FileType>)
    ensures |vs| == 3
    ensures forall i, j :: 0 <= i < j < |vs| ==> vs[i] != vs[j]
  {
    [XML, JSON, XLS]
  }

  /** The position of a type in FileTypeValues(), which therefore lists every type. */
  function Ordinal(ft: FileType): (k: nat)
    ensures k < |FileTypeValues()| && FileTypeValues()[k] == ft
  {
    match ft
    case XML => 0
    case JSON => 1
    case XLS => 2
  }

  /** An immutable file record; `fileType` and `size` are getType() and getSize(). */
  datatype File = File(fileType: FileType, size: int)

  /** A file as the generator produces it: its size lies in [MIN_SIZE, MAX_SIZE]. */
  predicate ValidFile(f: File)
  {
    MIN_SIZE <= f.size <= MAX_SIZE
  }

  // ---------------------------------------------------------------------
  // From random draws to delays, types and sizes
  // ---------------------------------------------------------------------

  /**
   * `random.nextInt(hi - lo + 1) + lo`, for a draw already taken from
   * [0, hi - lo + 1).
   */
  function InRange(lo: int, hi: int, draw: int): (v: int)
    requires lo <= hi && 0 <= draw <= hi - lo
    ensures lo <= v <= hi
  {
    draw + lo
  }

  /** Each value of [lo, hi] comes from exactly one draw. */
  lemma InRangeBijective(lo: int, hi: int, v: int)
    requires lo <= v <= hi
    ensures exists draw :: 0 <= draw <= hi - lo && InRange(lo, hi, draw) == v
    ensures forall d1, d2 ::
      0 <= d1 <= hi - lo && 0 <= d2 <= hi - lo && InRange(lo, hi, d1) == v && InRange(lo, hi, d2) == v ==> d1 == d2
  {
    assert InRange(lo, hi, v - lo) == v;
  }

  /** The generator's sleep before producing a file, in [MIN_DELAY_MS, MAX_DELAY_MS]. */
  function GenerationDelay(draw: int): (ms: int)
    requires 0 <= draw < MAX_DELAY_MS - MIN_DELAY_MS + 1
    ensures MIN_DELAY_MS <= ms <= MAX_DELAY_MS
  {
    InRange(MIN_DELAY_MS, MAX_DELAY_MS, draw)
  }

  /** The size of a new file, in [MIN_SIZE, MAX_SIZE]. */
  function FileSize(draw: int): (size: int)
    requires 0 <= draw < MAX_SIZE - MIN_SIZE + 1
    ensures MIN_SIZE <= size <= MAX_SIZE
  {
    InRange(MIN_SIZE, MAX_SIZE, draw)
  }

  /** `FileType.values()[draw]` for a draw from [0, values().length). */
  function TypeFromDraw(draw: int): (ft: FileType)
    requires 0 <= draw < |FileTypeValues()|
    ensures Ordinal(ft) == draw
  {
    FileTypeValues()[draw]
  }

  /** Every type is drawn by exactly its ordinal. */
  lemma TypeFromDrawOrdinal(ft: FileType)
    ensures TypeFromDraw(Ordinal(ft)) == ft
  {
  }

  /** Admissible draws for one generated file. */
  predicate FileDraws(typeDraw: int, sizeDraw: int)
  {
    0 <= typeDraw < |FileTypeValues()| && 0 <= sizeDraw < MAX_SIZE - MIN_SIZE + 1
  }

  /** The file the generator builds from a type draw and a size draw. */
  function NewFile(typeDraw: int, sizeDraw: int): (f: File)
    requires FileDraws(typeDraw, sizeDraw)
    ensures ValidFile(f)
    ensures Ordinal(f.fileType) == typeDraw
  {
    File(TypeFromDraw(typeDraw), FileSize(sizeDraw))
  }

  /** Every valid file can be generated, and from one pair of draws only. */
  lemma NewFileOnto(f: File)
    requires ValidFile(f)
    ensures exists td, sd :: FileDraws(td, sd) && NewFile(td, sd) == f
    ensures forall td, sd :: FileDraws(td, sd) && NewFile(td, sd) == f ==> td == Ordinal(f.fileType) && sd == f.size - MIN_SIZE
  {
    assert NewFile(Ordinal(f.fileType), f.size - MIN_SIZE) == f;
  }

  /** The processor's sleep for one file: its size times MS_PER_SIZE_UNIT. */
  function ProcessingDelay(f: File): (ms: int)
    ensures ValidFile(f) ==> MIN_SIZE * MS_PER_SIZE_UNIT <= ms <= MAX_SIZE * MS_PER_SIZE_UNIT
    ensures ms % MS_PER_SIZE_UNIT == 0 && ms / MS_PER_SIZE_UNIT == f.size
  {
    f.size * MS_PER_SIZE_UNIT
  }

  /** A larger file is processed for longer, and files of equal size equally long. */
  lemma ProcessingDelayMonotone(f: File, g: File)
    ensures f.size <= g.size <==> ProcessingDelay(f) <= ProcessingDelay(g)
    ensures f.size == g.size <==> ProcessingDelay(f) == ProcessingDelay(g)
  {
  }

  // ---------------------------------------------------------------------
  // The shared queue
  // ---------------------------------------------------------------------

  /** The LinkedList<File> shared by the generator and the processor. */
  class FileQueue {
    var items: seq<File>

    /** The bound that the two guards keep. */
    ghost predicate Valid()
      reads this
    {
      |items| <= QUEUE_CAPACITY
    }

    constructor ()
      ensures Valid() && items == []
    {
      items := [];
    }

    /**
     * The generator's wait condition: `queue.size() >= QUEUE_CAPACITY`.
     * Within the bound it holds exactly when the queue holds QUEUE_CAPACITY files.
     */
    predicate IsFull()
      reads this
      ensures Valid() ==> (IsFull() <==> |items| == QUEUE_CAPACITY)
      ensures !IsFull() ==> |items| + 1 <= QUEUE_CAPACITY
    {
      |items| >= QUEUE_CAPACITY
    }

    /** The processor's wait condition: `queue.isEmpty()`; otherwise there is a head to take. */
    predicate IsEmpty()
      reads this
      ensures IsEmpty() <==> items == []
    {
      |items| == 0
    }

    /**
     * The generator's synchronized block once its guard loop has exited:
     * `queue.add(file)` appends at the tail.
     */
    method Put(f: File)
      requires Valid() && !IsFull()
      modifies this
      ensures Valid()
      ensures items == old(items) + [f]
      ensures |items| == old(|items|) + 1
    {
      items := items + [f];
    }

    /**
     * The processor's synchronized block once its guard loop has exited:
     * `queue.remove()` takes the head.
     */
    method Take() returns (f: File)
      requires Valid() && !IsEmpty()
      modifies this
      ensures Valid()
      ensures [f] + items == old(items)
      ensures |items| == old(|items|) - 1
    {
      f := items[0];
      items := items[1..];
    }
  }

  // ---------------------------------------------------------------------
  // The two actors, one loop iteration each
  // ---------------------------------------------------------------------

  class Generator {
    const queue: FileQueue

    constructor (queue: FileQueue)
      ensures this.queue == queue
    {
      this.queue := queue;
    }

    /**
     * One iteration of Generator.run: the delay to sleep, then the file
     * built from the draws, appended to the queue once it is not full.
     */
    method Iterate(delayDraw: int, typeDraw: int, sizeDraw: int) returns (delayMs: int, file: File)
      requires 0 <= delayDraw < MAX_DELAY_MS - MIN_DELAY_MS + 1
      requires FileDraws(typeDraw, sizeDraw)
      requires queue.Valid() && !queue.IsFull()
      modifies queue
      ensures queue.Valid()
      ensures delayMs == GenerationDelay(delayDraw)
      ensures file == NewFile(typeDraw, sizeDraw)
      ensures queue.items == old(queue.items) + [file]
    {
      delayMs := GenerationDelay(delayDraw);
      file := NewFile(typeDraw, sizeDraw);
      queue.Put(file);
    }
  }

  class Processor {
    const queue: FileQueue

    constructor (queue: FileQueue)
      ensures this.queue == queue
    {
      this.queue := queue;
    }

    /**
     * One iteration of Processor.run: the head file is removed once the
     * queue is not empty, and the time to process it is returned.
     */
    method Iterate() returns (file: File, delayMs: int)
      requires queue.Valid() && !queue.IsEmpty()
      modifies queue
      ensures queue.Valid()
      ensures [file] + queue.items == old(queue.items)
      ensures delayMs == ProcessingDelay(file)
    {
      file := queue.Take();
      delayMs := ProcessingDelay(file);
    }
  }

  // ---------------------------------------------------------------------
  // Clients: FIFO order and the capacity bound under any interleaving
  // ---------------------------------------------------------------------

  /**
   * Put the given files into an empty queue, then take until it is empty:
   * they come out in the order they went in. Once filled, the queue is full
   * (a further put would wait) exactly when QUEUE_CAPACITY files went in.
   */
  method FillThenDrain(files: seq<File>) returns (fullAfterFill: bool, taken: seq<File>)
    requires |files| <= QUEUE_CAPACITY
    ensures fullAfterFill <==> |files| == QUEUE_CAPACITY
    ensures taken == files
  {
    var queue := new FileQueue();
    for i := 0 to |files|
      invariant queue.Valid() && queue.items == files[..i]
    {
      queue.Put(files[i]);
    }
    fullAfterFill := queue.IsFull();
    taken := [];
    while !queue.IsEmpty()
      invariant queue.Valid()
      invariant taken + queue.items == files
      decreases |queue.items|
    {
      var f := queue.Take();
      taken := taken + [f];
    }
  }

  /** One scheduling decision: which actor takes its next step. */
  datatype Turn =
    | GeneratorTurn(delayDraw: int, typeDraw: int, sizeDraw: int)
    | ProcessorTurn

  /** The draws of a generator turn lie within their ranges. */
  predicate AdmissibleTurn(turn: Turn)
  {
    turn.GeneratorTurn? ==>
      0 <= turn.delayDraw < MAX_DELAY_MS - MIN_DELAY_MS + 1 && FileDraws(turn.typeDraw, turn.sizeDraw)
  }

  /**
   * main's pipeline run sequentially: the generator and the processor share
   * one queue and take turns as `schedule` says. An actor whose guard does
   * not let it through (a full queue for the generator, an empty one for
   * the processor) stays parked in wait(), so its turn changes nothing.
   * Whatever the interleaving, the files come out in the order they went
   * in, the queue never holds more than QUEUE_CAPACITY of them, and every
   * file is valid.
   */
  method RunSchedule(schedule: seq<Turn>) returns (produced: seq<File>, processed: seq<File>, queued: seq<File>)
    requires forall k :: 0 <= k < |schedule| ==> AdmissibleTurn(schedule[k])
    ensures produced == processed + queued
    ensures |queued| <= QUEUE_CAPACITY
    ensures forall f :: f in produced ==> ValidFile(f)
  {
    var queue := new FileQueue();
    var generator := new Generator(queue);
    var processor := new Processor(queue);
    produced, processed := [], [];
    for k := 0 to |schedule|
      invariant queue.Valid()
      invariant produced == processed + queue.items
      invariant forall f :: f in produced ==> ValidFile(f)
    {
      match schedule[k]
      case GeneratorTurn(delayDraw, typeDraw, sizeDraw) =>
        if !queue.IsFull() {
          var _, file := generator.Iterate(delayDraw, typeDraw, sizeDraw);
          produced := produced + [file];
        }
      case ProcessorTurn =>
        if !queue.IsEmpty() {
          var file, _ := processor.Iterate();
          processed := processed + [file];
        }
    }
    queued := queue.items;
  }
}
