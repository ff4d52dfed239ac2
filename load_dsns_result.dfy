/** What the background load hands back to the load dialog, and what the dialog hands back to the main window. */
module LoadDsnsResults {
  import opened Registry

  /** The worker's outcome: a flag, an error message (empty on success) and the loaded DSNs (empty on failure). */
  datatype LoadDsnsResult = LoadDsnsResult(success: bool, message: string, dsns: seq<RegistryDsn>)

  /** The dialog's result: the DSNs that were loaded. */
  datatype LoadDsnsDialogResult = LoadDsnsDialogResult(dsns: seq<RegistryDsn>)

  function Success(dsns: seq<RegistryDsn>): (r: LoadDsnsResult)
    ensures r.success && r.message == [] && r.dsns == dsns
  {
    LoadDsnsResult(true, "", dsns)
  }

  function Failure(message: string): (r: LoadDsnsResult)
    ensures !r.success && r.message == message && r.dsns == []
  {
    LoadDsnsResult(false, message, [])
  }

  /** The derived default outcome: not successful, no message, no DSNs. */
  function DefaultLoadDsnsResult(): (r: LoadDsnsResult)
    ensures !r.success && r.message == [] && r.dsns == []
  {
    LoadDsnsResult(false, "", [])
  }

  function NewDialogResult(dsns: seq<RegistryDsn>): (r: LoadDsnsDialogResult)
    ensures r.dsns == dsns
  {
    LoadDsnsDialogResult(dsns)
  }

  /** The derived default dialog result holds no DSNs. */
  function DefaultDialogResult(): (r: LoadDsnsDialogResult)
    ensures r.dsns == []
  {
    LoadDsnsDialogResult([])
  }

  /** The two constructors never produce the same outcome, and each is determined by its argument. */
  lemma SuccessFailureDistinct(d: seq<RegistryDsn>, m: string, d': seq<RegistryDsn>, m': string)
    ensures Success(d) != Failure(m)
    ensures Success(d) == Success(d') ==> d == d'
    ensures Failure(m) == Failure(m') ==> m == m'
  {
  }
}
