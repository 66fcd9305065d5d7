/** The plugin's configuration entries, read once from its config file. */
module Settings {

  datatype Config = Config(
    proxy: bool,           // cas_proxy: act as a CAS proxy towards IMAP
    imapCaching: bool,     // cas_imap_caching: the IMAP server caches proxy tickets
    imapName: string,      // cas_imap_name: service name proxy tickets are issued for
    imapPassword: string,  // cas_imap_password: static IMAP password outside proxy mode
    pgtDir: string,        // cas_pgt_dir: where phpCAS keeps proxy-granting tickets
    hostname: string,      // cas_hostname
    port: int,             // cas_port
    uri: string,           // cas_uri
    validation: string,    // cas_validation: "self", "ca", or anything else for none
    cert: string,          // cas_cert
    loginUrl: string,      // cas_login_url
    logoutUrl: string)     // cas_logout_url
}
