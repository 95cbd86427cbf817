/** internal/models/cluster.go: the fields the event pipeline reads. */
module Cluster {
  import opened Text

  datatype DNSMapping = DNSMapping(zone: string, recordName: string, recordType: string, ttl: int)

  datatype Cluster = Cluster(
    groupName: string,
    masterName: string,
    dnsProvider: string,
    primaryDNS: DNSMapping,
    replicaDNS: Option<DNSMapping>,
    multiReplica: bool,
    quorumMode: bool,
    quorumThreshold: int)
}
