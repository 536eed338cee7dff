/** The validating webhook of Cluster. */

module Webhook {
  import opened Api

  datatype Admission = Admitted | EvenSize | VersionWhileUpdating | BackupChanged | SizeChanged

  function ValidateCreate(c: Cluster): Admission {
    if c.spec.size % 2 == 0 then EvenSize else Admitted
  }

  function ValidateUpdate(previous: Cluster, c: Cluster): Admission {
    if previous.status.phase == ClusterUpdating && c.spec.version != previous.spec.version then VersionWhileUpdating
    else if previous.spec.backup != c.spec.backup then BackupChanged
    else if previous.spec.size != c.spec.size then SizeChanged
    else Admitted
  }

  /** Any odd size is admitted, and nothing else is looked at. */
  lemma CreateAdmitted(c: Cluster)
    ensures ValidateCreate(c) == Admitted <==> c.spec.size % 2 != 0
  {
  }

  /** An edit is refused only for the version while the cluster is Updating, for the backup, or for the size. */
  lemma UpdateAdmitted(previous: Cluster, c: Cluster)
    ensures ValidateUpdate(previous, c) == Admitted <==>
              && (previous.status.phase == ClusterUpdating ==> c.spec.version == previous.spec.version)
              && c.spec.backup == previous.spec.backup && c.spec.size == previous.spec.size
  {
  }

  /** A history of one cluster object: the first value was admitted, and each later value is
      an admitted edit of the one before it or a status write, which the webhook never sees. */
  ghost predicate IsHistory(h: seq<Cluster>) {
    h != [] && ValidateCreate(h[0]) == Admitted
    && forall k :: 0 < k < |h| ==> ValidateUpdate(h[k - 1], h[k]) == Admitted || h[k].spec == h[k - 1].spec
  }

  lemma {:induction false} AdmittedEdits(h: seq<Cluster>, k: nat)
    requires IsHistory(h) && k < |h|
    ensures h[k].spec.size == h[0].spec.size && h[k].spec.size % 2 == 1
    ensures h[k].spec.backup == h[0].spec.backup
    ensures k > 0 && h[k].spec.version != h[k - 1].spec.version ==> h[k - 1].status.phase != ClusterUpdating
  {
    if k > 0 {
      AdmittedEdits(h, k - 1);
    }
  }
}
