/**
 * Display helpers for contract statuses: the Vietnamese label and the
 * badge styling of each of the seven known statuses.
 */
module StatusUtils {

  const StatusLabels: map<string, string> := map[
    "draft" := "Nháp",
    "pending_approval" := "Chờ phê duyệt",
    "approved" := "Đã phê duyệt",
    "active" := "Đang thực hiện",
    "completed" := "Hoàn thành",
    "cancelled" := "Đã hủy",
    "expired" := "Hết hạn"
  ]

  const BadgeColors: map<string, string> := map[
    "draft" := "outline",
    "pending_approval" := "bg-yellow-100 text-yellow-800 hover:bg-yellow-100",
    "approved" := "bg-blue-100 text-blue-800 hover:bg-blue-100",
    "active" := "bg-green-100 text-green-800 hover:bg-green-100",
    "completed" := "bg-purple-100 text-purple-800 hover:bg-purple-100",
    "cancelled" := "bg-red-100 text-red-800 hover:bg-red-100",
    "expired" := "bg-gray-100 text-gray-800 hover:bg-gray-100"
  ]

  /** The seven statuses a contract can be in. */
  const KnownStatuses: set<string> :=
    {"draft", "pending_approval", "approved", "active", "completed", "cancelled", "expired"}

  /** `statusMap[status] || status`: the label of a known status, any other status unchanged. */
  function TranslateContractStatus(status: string): (text: string)
    ensures status in KnownStatuses ==> text == StatusLabels[status] && text != status
    ensures status !in KnownStatuses ==> text == status
  {
    if status in StatusLabels && StatusLabels[status] != "" then StatusLabels[status] else status
  }

  /** `colorMap[status] || 'secondary'`. */
  function GetStatusBadgeColor(status: string): (color: string)
    ensures status in KnownStatuses ==> color == BadgeColors[status]
    ensures status !in KnownStatuses ==> color == "secondary"
    ensures color != ""
  {
    if status in BadgeColors && BadgeColors[status] != "" then BadgeColors[status] else "secondary"
  }

  /** Both tables cover exactly the known statuses, so every labelled status also has its own colour. */
  lemma TablesShareKeys()
    ensures StatusLabels.Keys == BadgeColors.Keys == KnownStatuses
    ensures forall s | s in KnownStatuses :: GetStatusBadgeColor(s) != "secondary"
  {
  }

  /** Distinct known statuses get distinct labels. */
  lemma LabelsDistinct(s1: string, s2: string)
    requires s1 in KnownStatuses && s2 in KnownStatuses && s1 != s2
    ensures TranslateContractStatus(s1) != TranslateContractStatus(s2)
  {
  }

  /** No label is itself a status name, so translating a translated status changes nothing further. */
  lemma TranslateIdempotent(status: string)
    ensures TranslateContractStatus(TranslateContractStatus(status)) == TranslateContractStatus(status)
  {
    assert forall s | s in KnownStatuses :: StatusLabels[s] !in KnownStatuses;
  }
}
