/** The in-memory datastore: one field per collection, updated in place by the
    callable functions, which live in the modules of their own components. */
module Store {
  import opened Records

  class Db {
    var rateLimits: map<string, RateRecord>
    var users: map<string, User>
    var parentChildLinks: map<string, Link>
    var parentChildren: seq<CompatLink>
    var whitelist: seq<WhitelistEntry>
    var userLocations: map<string, seq<string>>
    var linkCodes: seq<LinkCode>
    var contacts: map<string, Contact>
    var contactRequests: map<string, ContactRequest>
    var permissionRequests: map<string, PermissionRequest>

    constructor (s: Snapshot)
      ensures Snap() == s
    {
      rateLimits := s.rateLimits;
      users := s.users;
      parentChildLinks := s.parentChildLinks;
      parentChildren := s.parentChildren;
      whitelist := s.whitelist;
      userLocations := s.userLocations;
      linkCodes := s.linkCodes;
      contacts := s.contacts;
      contactRequests := s.contactRequests;
      permissionRequests := s.permissionRequests;
    }

    /** The whole store as a value. */
    function Snap(): Snapshot
      reads this
    {
      Snapshot(rateLimits, users, parentChildLinks, parentChildren, whitelist,
               userLocations, linkCodes, contacts, contactRequests, permissionRequests)
    }
  }
}
