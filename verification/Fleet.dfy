/** The fleet snapshot that the catalog and the GPU inventory read (internal/types/types.go). */
module Fleet {

  datatype Model = Model(name: string, digest: string)

  datatype Status = Online | Draining | Stale

  /** totalVram and freeVram are uint64, load and activeJobs uint32. */
  datatype Worker = Worker(
    id: string, models: seq<Model>, activeJobs: Word, totalVram: Long, freeVram: Long, load: Word,
    gpuType: string, status: Status)

  type Word = n: nat | n < 0x1_0000_0000

  type Long = n: nat | n < 0x1_0000_0000_0000_0000
}
