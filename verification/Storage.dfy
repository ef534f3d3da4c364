/** Buffered record writer (agentpick_data/src/hf_vectorizer/storage.py). `file` stands
    for what has been handed to the Parquet library; a write is assumed not to fail. */
module Storage {

  const FLUSH_THRESHOLD := 1000

  class ParquetWriter<R> {
    var buffer: seq<R>
    var file: seq<R>
    var hasSchema: bool
    var isOpen: bool

    /** Everything added so far, in order. */
    ghost function Contents(): seq<R>
      reads this
    {
      file + buffer
    }

    ghost predicate Valid()
      reads this
    {
      (isOpen ==> hasSchema) && (file != [] ==> hasSchema)
    }

    constructor ()
      ensures Valid() && Contents() == [] && buffer == [] && !isOpen && !hasSchema
    {
      buffer, file, hasSchema, isOpen := [], [], false, false;
    }

    method Flush()
      requires Valid()
      modifies this
      ensures Valid() && buffer == [] && Contents() == old(Contents())
      ensures isOpen == (old(isOpen) || old(buffer) != [])
    {
      if buffer == [] {
        return;
      }
      hasSchema := true;
      isOpen := true;
      file := file + buffer;
      buffer := [];
    }

    method Add(records: seq<R>)
      requires Valid() && |buffer| < FLUSH_THRESHOLD
      modifies this
      ensures Valid() && Contents() == old(Contents()) + records
      ensures |buffer| < FLUSH_THRESHOLD
      ensures if |old(buffer)| + |records| >= 1000 then buffer == [] else file == old(file)
    {
      buffer := buffer + records;
      assert Contents() == old(Contents()) + records;
      if |buffer| >= FLUSH_THRESHOLD {
        Flush();
      }
    }

    /** Closing does not flush. */
    method Close()
      requires Valid()
      modifies this
      ensures Valid() && !isOpen && Contents() == old(Contents()) && buffer == old(buffer)
    {
      isOpen := false;
    }
  }
}
